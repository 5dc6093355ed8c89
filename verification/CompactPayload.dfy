/** A payload written out word by word, without spaces, and the request the strict parser
    (internal/api/parse_strict.go:154-346) reads from it: which key fills which field. */
module CompactPayload {
  import opened Distance
  import opened PayloadGrammar
  import opened PayloadPrinter
  import opened PayloadRoundTrip

  // ---------- Words ----------

  /** The words one after another, followed by rest. */
  function Chain(words: seq<string>, rest: string): string {
    if words == [] then rest else words[0] + Chain(words[1..], rest)
  }

  lemma {:induction false} ChainAppend(a: seq<string>, b: seq<string>, rest: string)
    ensures Chain(a + b, rest) == Chain(a, Chain(b, rest))
  {
    if a == [] {
      assert a + b == b;
    } else {
      assert (a + b)[1..] == a[1..] + b;
      ChainAppend(a[1..], b, rest);
    }
  }

  /** The forms without spaces around them. */
  function Plain(forms: seq<Form>): (ps: seq<Piece>)
    ensures |ps| == |forms| && forall i :: 0 <= i < |forms| ==> ps[i] == Piece("", forms[i], "")
  {
    seq(|forms|, i requires 0 <= i < |forms| => Piece("", forms[i], ""))
  }

  /** The step is written as word and stands for v. */
  ghost predicate Written(step: Step, form: Form, word: string, v: Value) {
    FormOk(step, form) && FormText(step, form) == word && FormValue(step, form) == v
  }

  ghost predicate Writes(script: seq<Step>, forms: seq<Form>, words: seq<string>, vals: seq<Value>) {
    && |forms| == |words| == |vals| == |script|
    && forall i :: 0 <= i < |script| ==> Written(script[i], forms[i], words[i], vals[i])
  }

  /** Pieces without spaces around them are legal. */
  lemma PlainOk(script: seq<Step>, forms: seq<Form>, words: seq<string>, vals: seq<Value>)
    requires Writes(script, forms, words, vals)
    ensures PiecesOk(script, Plain(forms))
    ensures forall i :: 0 <= i < |script| ==>
              && FormOk(script[i], forms[i]) && FormText(script[i], forms[i]) == words[i]
              && FormValue(script[i], forms[i]) == vals[i]
  {
    assert forall k :: 0 <= k < |script| ==> Written(script[k], forms[k], words[k], vals[k]);
    hide FormText, FormOk, FormValue;
  }

  /** The i-th piece is its word. */
  lemma PlainTextStep(script: seq<Step>, forms: seq<Form>, words: seq<string>, vals: seq<Value>, i: nat, rest: string)
    requires Writes(script, forms, words, vals) && i <= |script| == |forms| == |words|
    ensures PiecesOk(script, Plain(forms))
    ensures i == |script| ==> TextFrom(script, Plain(forms), i, rest) == rest
    ensures i < |script| ==>
              TextFrom(script, Plain(forms), i, rest) == words[i] + TextFrom(script, Plain(forms), i + 1, rest)
  {
    PlainOk(script, forms, words, vals);
    hide Writes, PiecesOk, FormText, FormOk;
    if i < |script| {
      assert Plain(forms)[i] == Piece("", forms[i], "");
      var next := TextFrom(script, Plain(forms), i + 1, rest);
      assert TextFrom(script, Plain(forms), i, rest) == "" + (words[i] + ("" + next));
      hide *;
      NoSpaces(words[i], next);
    }
  }

  lemma NoSpaces(word: string, next: string)
    ensures "" + (word + ("" + next)) == word + next
  {
  }

  /** And stands for its value. */
  lemma PlainValueStep(script: seq<Step>, forms: seq<Form>, words: seq<string>, vals: seq<Value>, i: nat)
    requires Writes(script, forms, words, vals) && i <= |script| == |forms| == |vals|
    ensures PiecesOk(script, Plain(forms))
    ensures i == |script| ==> ValuesFrom(script, Plain(forms), i) == []
    ensures i < |script| ==>
              ValuesFrom(script, Plain(forms), i) ==
                if vals[i] == Nothing then ValuesFrom(script, Plain(forms), i + 1)
                else [vals[i]] + ValuesFrom(script, Plain(forms), i + 1)
  {
    PlainOk(script, forms, words, vals);
    hide Writes, PiecesOk, FormValue, FormOk;
    if i < |script| {
      assert Plain(forms)[i] == Piece("", forms[i], "");
    }
  }

  lemma ChainStep(words: seq<string>, i: nat, rest: string)
    requires i <= |words|
    ensures Chain(words[i..], rest) == if i == |words| then rest else words[i] + Chain(words[i + 1..], rest)
  {
    if i < |words| {
      assert words[i..][1..] == words[i + 1..];
    }
  }

  lemma {:induction false} PlainText(script: seq<Step>, forms: seq<Form>, words: seq<string>, vals: seq<Value>, i: nat,
                                     rest: string)
    requires Writes(script, forms, words, vals) && i <= |script| == |words| == |forms|
    ensures PiecesOk(script, Plain(forms)) && TextFrom(script, Plain(forms), i, rest) == Chain(words[i..], rest)
    decreases |script| - i
  {
    hide *;
    PlainTextStep(script, forms, words, vals, i, rest);
    ChainStep(words, i, rest);
    if i < |script| {
      PlainText(script, forms, words, vals, i + 1, rest);
    }
  }

  /** Values at the positions at, in order; nothing elsewhere. */
  ghost predicate ValuesLie(vals: seq<Value>, i: nat, at: seq<nat>, vs: seq<Value>) {
    && |at| == |vs|
    && (forall j :: 0 <= j < |at| ==> i <= at[j] < |vals| && vals[at[j]] == vs[j] != Nothing)
    && (forall j, k :: 0 <= j < k < |at| ==> at[j] < at[k])
    && (forall k :: i <= k < |vals| && k !in at ==> vals[k] == Nothing)
  }

  lemma LieStep(vals: seq<Value>, i: nat, at: seq<nat>, vs: seq<Value>)
    requires ValuesLie(vals, i, at, vs) && i <= |vals|
    ensures i == |vals| ==> vs == []
    ensures i < |vals| && vals[i] != Nothing ==>
              at != [] && vs != [] && vs[0] == vals[i] && ValuesLie(vals, i + 1, at[1..], vs[1..])
    ensures i < |vals| && vals[i] == Nothing ==> ValuesLie(vals, i + 1, at, vs)
  {
    if |at| > 0 {
      assert i <= at[0] < |vals| && vals[at[0]] == vs[0];
      assert at == [at[0]] + at[1..];
      if i < |vals| && vals[i] != Nothing {
        assert at[0] == i;
      }
    }
  }

  lemma {:induction false} PlainValues(script: seq<Step>, forms: seq<Form>, words: seq<string>, vals: seq<Value>,
                                       i: nat,
                                       at: seq<nat>, vs: seq<Value>)
    requires Writes(script, forms, words, vals) && i <= |script| == |vals| == |forms| && ValuesLie(vals, i, at, vs)
    ensures PiecesOk(script, Plain(forms)) && ValuesFrom(script, Plain(forms), i) == vs
    decreases |script| - i
  {
    hide *;
    PlainValueStep(script, forms, words, vals, i);
    LieStep(vals, i, at, vs);
    if i < |script| {
      if vals[i] != Nothing {
        PlainValues(script, forms, words, vals, i + 1, at[1..], vs[1..]);
        assert vs == [vs[0]] + vs[1..];
      } else {
        PlainValues(script, forms, words, vals, i + 1, at, vs);
      }
    }
  }

  // ---------- The parts of a payload ----------

  /** A number with a point, as written. */
  datatype Amount = Amount(neg: bool, whole: string, frac: string) {
    predicate Ok() {
      Digits(whole) && whole != [] && Digits(frac)
    }

    function Text(): string {
      RealText(neg, whole, true, frac)
    }

    function Value(): real
      requires Ok()
    {
      DecimalOf(neg, whole, frac)
    }

    function Form(): Form {
      RealForm(neg, whole, true, frac)
    }
  }

  datatype Parts = Parts(
    id: string, amount: Amount, installments: string, requestedAt: Stamp,
    customerAvg: Amount, txCount24h: string, knownMerchants: seq<string>,
    merchantID: string, mcc: string, merchantAvg: Amount,
    isOnline: bool, cardPresent: bool, kmFromHome: Amount,
    hasLast: bool, lastTimestamp: Stamp, lastKm: Amount)

  predicate IsNumber(s: string) {
    Digits(s) && s != []
  }

  ghost predicate PartsFine(p: Parts) {
    && Clean(p.id) && p.amount.Ok() && IsNumber(p.installments) && ValidStamp(p.requestedAt)
    && p.customerAvg.Ok() && IsNumber(p.txCount24h)
    && (forall i :: 0 <= i < |p.knownMerchants| ==> Clean(p.knownMerchants[i]))
    && Clean(p.merchantID) && Clean(p.mcc) && p.merchantAvg.Ok() && p.kmFromHome.Ok()
    && ValidStamp(p.lastTimestamp) && p.lastKm.Ok()
  }

  function ListItems(xs: seq<string>): Items {
    if xs == [] then End("")
    else if |xs| == 1 then Last("", xs[0], "")
    else More("", xs[0], "", ListItems(xs[1..]))
  }

  /** The items between quotes and commas, and the closing bracket. */
  function ListText(xs: seq<string>): string {
    if xs == [] then "]"
    else if |xs| == 1 then Quoted(xs[0]) + "]"
    else Quoted(xs[0]) + ("," + ListText(xs[1..]))
  }

  lemma {:induction false} ListIsItems(xs: seq<string>)
    requires forall i :: 0 <= i < |xs| ==> Clean(xs[i])
    ensures ItemsOk(ListItems(xs)) && ItemsText(ListItems(xs)) == ListText(xs) && ItemsValue(ListItems(xs)) == xs
  {
    hide Clean, Quoted;
    if |xs| > 1 {
      ListIsItems(xs[1..]);
    }
  }

  // ---------- Object by object ----------

  function OpenWords(p: Parts): seq<string> {
    ["{", "\"id\":", Quoted(p.id), ","]
  }

  function TransactionWords(p: Parts): seq<string>
    requires ValidStamp(p.requestedAt)
  {
    ["\"transaction\":", "{", "\"amount\":", p.amount.Text(), ",", "\"installments\":", p.installments, ",",
     "\"requested_at\":", Quoted(StampText(p.requestedAt)), "}", ","]
  }

  function CustomerWords(p: Parts): seq<string> {
    ["\"customer\":", "{", "\"avg_amount\":", p.customerAvg.Text(), ",", "\"tx_count_24h\":", p.txCount24h, ",",
     "\"known_merchants\":", "[" + ListText(p.knownMerchants), "}", ","]
  }

  function MerchantWords(p: Parts): seq<string> {
    ["\"merchant\":", "{", "\"id\":", Quoted(p.merchantID), ",", "\"mcc\":", Quoted(p.mcc), ",",
     "\"avg_amount\":", p.merchantAvg.Text(), "}", ","]
  }

  function TerminalWords(p: Parts): seq<string> {
    ["\"terminal\":", "{", "\"is_online\":", Truth(p.isOnline), ",", "\"card_present\":", Truth(p.cardPresent), ",",
     "\"km_from_home\":", p.kmFromHome.Text(), "}", ",", "\"last_transaction\":"]
  }

  function LastWords(p: Parts): seq<string>
    requires ValidStamp(p.lastTimestamp)
  {
    if p.hasLast then
      ["{", "\"timestamp\":", Quoted(StampText(p.lastTimestamp)), ",", "\"km_from_current\":", p.lastKm.Text(), "}"]
    else ["null"]
  }

  function Truth(b: bool): string {
    if b then "true" else "false"
  }

  /** The whole payload. */
  function Words(p: Parts): seq<string>
    requires ValidStamp(p.requestedAt) && ValidStamp(p.lastTimestamp)
  {
    OpenWords(p) + (TransactionWords(p) + (CustomerWords(p) + (MerchantWords(p) +
      (TerminalWords(p) + (LastWords(p) + ["}"])))))
  }

  /** The request it stands for, field by field; the details of a missing last transaction
      stay as they were. */
  function RequestFrom(p: Parts, before: Request): Request
    requires PartsFine(p)
  {
    Request(p.id, p.amount.Value(), Wrap32(NumberOf(p.installments)), CalendarDate(p.requestedAt),
            p.customerAvg.Value(), Wrap32(NumberOf(p.txCount24h)), p.knownMerchants,
            p.merchantID, p.mcc, p.merchantAvg.Value(),
            p.isOnline, p.cardPresent, p.kmFromHome.Value(),
            p.hasLast,
            if p.hasLast then CalendarDate(p.lastTimestamp) else before.lastTimestamp,
            if p.hasLast then p.lastKm.Value() else before.lastKm)
  }

  const COMMA: Form := PunctForm(',')
  const BRACE: Form := PunctForm('{')
  const UNBRACE: Form := PunctForm('}')

  function KeyOf(name: string): Form {
    KeyForm(name, "")
  }

  // ---------- Steps ----------

  lemma PunctWritten()
    ensures forall c :: Written(Punct(c), PunctForm(c), [c], Nothing)
  {
  }

  lemma KeyWritten(name: string, word: string)
    requires word == name + ":"
    ensures Written(Key(name), KeyOf(name), word, Nothing)
  {
  }

  lemma StringWritten(x: string)
    requires Clean(x)
    ensures Written(StringStep, StringForm(x), Quoted(x), Str(x))
  {
  }

  lemma AmountWritten(a: Amount)
    requires a.Ok()
    ensures Written(RealStep, a.Form(), a.Text(), Num(a.Value()))
  {
  }

  lemma NumberWritten(digits: string)
    requires IsNumber(digits)
    ensures Written(IntStep, IntForm(digits), digits, Int(Wrap32(NumberOf(digits))))
  {
  }

  lemma TruthWritten(b: bool)
    ensures Written(BoolStep, BoolForm(b), Truth(b), Flag(b))
  {
  }

  lemma StampWritten(at: Stamp)
    requires ValidStamp(at)
    ensures Written(TimeStep, TimeForm(at), Quoted(StampText(at)), Time(CalendarDate(at)))
  {
  }

  lemma ListWritten(xs: seq<string>)
    requires forall i :: 0 <= i < |xs| ==> Clean(xs[i])
    ensures Written(ArrayStep, ArrayForm(ListItems(xs)), "[" + ListText(xs), Strs(xs))
  {
    ListIsItems(xs);
  }

  /** Consecutive steps, how they are written, the words, and the values. */
  datatype Group = Group(steps: seq<Step>, forms: seq<Form>, words: seq<string>, vals: seq<Value>)

  ghost predicate GroupOk(g: Group) {
    Writes(g.steps, g.forms, g.words, g.vals)
  }

  function Join(a: Group, b: Group): Group {
    Group(a.steps + b.steps, a.forms + b.forms, a.words + b.words, a.vals + b.vals)
  }

  lemma JoinOk(a: Group, b: Group)
    requires GroupOk(a) && GroupOk(b)
    ensures GroupOk(Join(a, b))
  {
    hide Written;
  }

  /** A key, the value written after it, and a punctuation mark. */
  function Entry(name: string, word: string, step: Step, form: Form, text: string, v: Value, c: char): Group {
    Group([Key(name), step, Punct(c)], [KeyOf(name), form, PunctForm(c)], [word, text, [c]], [Nothing, v, Nothing])
  }

  lemma EntryOk(name: string, word: string, step: Step, form: Form, text: string, v: Value, c: char)
    requires word == name + ":" && Written(step, form, text, v)
    ensures GroupOk(Entry(name, word, step, form, text, v, c))
  {
    KeyWritten(name, word);
    PunctWritten();
    hide Written;
  }

  /** The name of an object and its opening brace. */
  function Head(name: string, word: string): Group {
    Group([Key(name), Punct('{')], [KeyOf(name), BRACE], [word, "{"], [Nothing, Nothing])
  }

  lemma HeadOk(name: string, word: string)
    requires word == name + ":"
    ensures GroupOk(Head(name, word))
  {
    KeyWritten(name, word);
    PunctWritten();
    hide Written;
  }

  function Brace(): Group {
    Group([Punct('{')], [BRACE], ["{"], [Nothing])
  }

  lemma BraceOk()
    ensures GroupOk(Brace())
  {
    PunctWritten();
    hide Written;
  }

  function Comma(): Group {
    Group([Punct(',')], [COMMA], [","], [Nothing])
  }

  lemma CommaOk()
    ensures GroupOk(Comma())
  {
    PunctWritten();
    hide Written;
  }

  /** An object of three entries. */
  function Object(h: Group, a: Group, b: Group, c: Group): Group {
    Join(Join(Join(h, a), b), Join(c, Comma()))
  }

  lemma ObjectOk(h: Group, a: Group, b: Group, c: Group)
    requires GroupOk(h) && GroupOk(a) && GroupOk(b) && GroupOk(c)
    ensures GroupOk(Object(h, a, b, c))
  {
    hide GroupOk;
    CommaOk();
    JoinOk(h, a);
    JoinOk(Join(h, a), b);
    JoinOk(c, Comma());
    JoinOk(Join(Join(h, a), b), Join(c, Comma()));
  }

  /** One entry of an object: the key, the word it is written as, and its value. */
  datatype Field = Field(name: string, word: string, step: Step, form: Form, text: string, v: Value)

  ghost predicate FieldOk(f: Field) {
    f.word == f.name + ":" && Written(f.step, f.form, f.text, f.v) && f.v != Nothing
  }

  ghost predicate IsObject(name: string, word: string, a: Field, b: Field, c: Field, g: Group) {
    && GroupOk(g)
    && g.steps == [Key(name), Punct('{'), Key(a.name), a.step, Punct(','), Key(b.name), b.step, Punct(','),
                   Key(c.name), c.step, Punct('}'), Punct(',')]
    && g.words == [word, "{", a.word, a.text, ",", b.word, b.text, ",", c.word, c.text, "}", ","]
    && g.vals == [Nothing, Nothing, Nothing, a.v, Nothing, Nothing, b.v, Nothing, Nothing, c.v, Nothing, Nothing]
  }

  lemma Twelve<T>(a: T, b: T, c: T, d: T, e: T, f: T, g: T, h: T, i: T, j: T, k: T, l: T)
    ensures [a, b] + [c, d, e] + [f, g, h] + ([i, j, k] + [l]) == [a, b, c, d, e, f, g, h, i, j, k, l]
  {
  }

  lemma ObjectOf(name: string, word: string, a: Field, b: Field, c: Field) returns (g: Group)
    requires word == name + ":" && FieldOk(a) && FieldOk(b) && FieldOk(c)
    ensures IsObject(name, word, a, b, c, g)
  {
    HeadOk(name, word);
    EntryOk(a.name, a.word, a.step, a.form, a.text, a.v, ',');
    EntryOk(b.name, b.word, b.step, b.form, b.text, b.v, ',');
    EntryOk(c.name, c.word, c.step, c.form, c.text, c.v, '}');
    hide Written, GroupOk;
    var x := Entry(a.name, a.word, a.step, a.form, a.text, a.v, ',');
    var y := Entry(b.name, b.word, b.step, b.form, b.text, b.v, ',');
    var z := Entry(c.name, c.word, c.step, c.form, c.text, c.v, '}');
    ObjectOk(Head(name, word), x, y, z);
    g := Object(Head(name, word), x, y, z);
    Twelve(Key(name), Punct('{'), Key(a.name), a.step, Punct(','), Key(b.name), b.step, Punct(','),
           Key(c.name), c.step, Punct('}'), Punct(','));
    Twelve(word, "{", a.word, a.text, ",", b.word, b.text, ",", c.word, c.text, "}", ",");
    Twelve(Nothing, Nothing, Nothing, a.v, Nothing, Nothing, b.v, Nothing, Nothing, c.v, Nothing, Nothing);
  }

  lemma Seven<T>(a: T, b: T, c: T, d: T, e: T, f: T, g: T)
    ensures [a] + [b, c, d] + [e, f, g] == [a, b, c, d, e, f, g]
  {
  }

  /** An unnamed object of two entries, without a comma. */
  lemma PairOf(a: Field, b: Field) returns (g: Group)
    requires FieldOk(a) && FieldOk(b)
    ensures GroupOk(g)
    ensures g.steps == [Punct('{'), Key(a.name), a.step, Punct(','), Key(b.name), b.step, Punct('}')]
    ensures g.words == ["{", a.word, a.text, ",", b.word, b.text, "}"]
    ensures g.vals == [Nothing, Nothing, a.v, Nothing, Nothing, b.v, Nothing]
  {
    EntryOk(a.name, a.word, a.step, a.form, a.text, a.v, ',');
    EntryOk(b.name, b.word, b.step, b.form, b.text, b.v, '}');
    BraceOk();
    hide Written, GroupOk;
    var x := Entry(a.name, a.word, a.step, a.form, a.text, a.v, ',');
    var y := Entry(b.name, b.word, b.step, b.form, b.text, b.v, '}');
    JoinOk(Brace(), x);
    JoinOk(Join(Brace(), x), y);
    g := Join(Join(Brace(), x), y);
    Seven(Punct('{'), Key(a.name), a.step, Punct(','), Key(b.name), b.step, Punct('}'));
    Seven("{", a.word, a.text, ",", b.word, b.text, "}");
    Seven(Nothing, Nothing, a.v, Nothing, Nothing, b.v, Nothing);
  }

  /** What a script's pieces are, from a group that covers it. */
  lemma GroupPieces(g: Group, at: seq<nat>, vs: seq<Value>, rest: string) returns (ps: seq<Piece>)
    requires GroupOk(g) && ValuesLie(g.vals, 0, at, vs)
    ensures PiecesOk(g.steps, ps) && TextFrom(g.steps, ps, 0, rest) == Chain(g.words, rest)
    ensures ValuesFrom(g.steps, ps, 0) == vs
  {
    ps := Plain(g.forms);
    PlainText(g.steps, g.forms, g.words, g.vals, 0, rest);
    PlainValues(g.steps, g.forms, g.words, g.vals, 0, at, vs);
    assert g.words[0..] == g.words;
  }

  lemma OneLies(vals: seq<Value>, vs: seq<Value>)
    requires |vs| == 1 && vs[0] != Nothing && vals == [Nothing, Nothing, vs[0], Nothing]
    ensures ValuesLie(vals, 0, [2], vs)
  {
    var at: seq<nat> := [2];
    assert at[0] == 2;
  }

  lemma OpenWritten(p: Parts, rest: string) returns (ps: seq<Piece>)
    requires PartsFine(p)
    ensures PiecesOk(OPEN, ps) && TextFrom(OPEN, ps, 0, rest) == Chain(OpenWords(p), rest)
    ensures ValuesFrom(OPEN, ps, 0) == [Str(p.id)]
  {
    StringWritten(p.id);
    EntryOk("\"id\"", "\"id\":", StringStep, StringForm(p.id), Quoted(p.id), Str(p.id), ',');
    BraceOk();
    var entry := Entry("\"id\"", "\"id\":", StringStep, StringForm(p.id), Quoted(p.id), Str(p.id), ',');
    JoinOk(Brace(), entry);
    var g := Join(Brace(), entry);
    assert g.steps == OPEN && g.words == OpenWords(p);
    var vs := [Str(p.id)];
    assert g.vals == [Nothing, Nothing, vs[0], Nothing];
    OneLies(g.vals, vs);
    hide *;
    ps := GroupPieces(g, [2], vs, rest);
  }

  lemma ThreeLie(vals: seq<Value>, vs: seq<Value>)
    requires |vs| == 3 && vs[0] != Nothing && vs[1] != Nothing && vs[2] != Nothing
    requires vals ==
              [Nothing, Nothing, Nothing, vs[0], Nothing, Nothing, vs[1], Nothing, Nothing, vs[2], Nothing, Nothing]
    ensures ValuesLie(vals, 0, [3, 6, 9], vs)
  {
    var at: seq<nat> := [3, 6, 9];
    assert at[0] == 3 && at[1] == 6 && at[2] == 9;
  }

  lemma TransactionGroup(p: Parts) returns (g: Group, vs: seq<Value>)
    requires PartsFine(p)
    ensures GroupOk(g) && g.steps == TRANSACTION && g.words == TransactionWords(p)
    ensures vs == [Num(p.amount.Value()), Int(Wrap32(NumberOf(p.installments))), Time(CalendarDate(p.requestedAt))]
    ensures ValuesLie(g.vals, 0, [3, 6, 9], vs)
  {
    AmountWritten(p.amount);
    var a := Field("\"amount\"", "\"amount\":", RealStep, p.amount.Form(), p.amount.Text(), Num(p.amount.Value()));
    NumberWritten(p.installments);
    var b := Field("\"installments\"", "\"installments\":", IntStep, IntForm(p.installments), p.installments,
                   Int(Wrap32(NumberOf(p.installments))));
    StampWritten(p.requestedAt);
    var c := Field("\"requested_at\"", "\"requested_at\":", TimeStep, TimeForm(p.requestedAt),
                   Quoted(StampText(p.requestedAt)), Time(CalendarDate(p.requestedAt)));
    hide Written, GroupOk;
    g := ObjectOf("\"transaction\"", "\"transaction\":", a, b, c);
    vs := [a.v, b.v, c.v];
    ThreeLie(g.vals, vs);
  }

  lemma TransactionWritten(p: Parts, rest: string) returns (ps: seq<Piece>)
    requires PartsFine(p)
    ensures PiecesOk(TRANSACTION, ps) && TextFrom(TRANSACTION, ps, 0, rest) == Chain(TransactionWords(p), rest)
    ensures ValuesFrom(TRANSACTION, ps, 0) ==
              [Num(p.amount.Value()), Int(Wrap32(NumberOf(p.installments))), Time(CalendarDate(p.requestedAt))]
  {
    hide *;
    var g, vs := TransactionGroup(p);
    ps := GroupPieces(g, [3, 6, 9], vs, rest);
  }

  lemma CustomerGroup(p: Parts) returns (g: Group, vs: seq<Value>)
    requires PartsFine(p)
    ensures GroupOk(g) && g.steps == CUSTOMER && g.words == CustomerWords(p)
    ensures vs == [Num(p.customerAvg.Value()), Int(Wrap32(NumberOf(p.txCount24h))), Strs(p.knownMerchants)]
    ensures ValuesLie(g.vals, 0, [3, 6, 9], vs)
  {
    AmountWritten(p.customerAvg);
    var a := Field("\"avg_amount\"", "\"avg_amount\":", RealStep, p.customerAvg.Form(), p.customerAvg.Text(),
                   Num(p.customerAvg.Value()));
    NumberWritten(p.txCount24h);
    var b := Field("\"tx_count_24h\"", "\"tx_count_24h\":", IntStep, IntForm(p.txCount24h), p.txCount24h,
                   Int(Wrap32(NumberOf(p.txCount24h))));
    ListWritten(p.knownMerchants);
    var c := Field("\"known_merchants\"", "\"known_merchants\":", ArrayStep, ArrayForm(ListItems(p.knownMerchants)),
                   "[" + ListText(p.knownMerchants), Strs(p.knownMerchants));
    hide Written, GroupOk;
    g := ObjectOf("\"customer\"", "\"customer\":", a, b, c);
    vs := [a.v, b.v, c.v];
    ThreeLie(g.vals, vs);
  }

  lemma CustomerWritten(p: Parts, rest: string) returns (ps: seq<Piece>)
    requires PartsFine(p)
    ensures PiecesOk(CUSTOMER, ps) && TextFrom(CUSTOMER, ps, 0, rest) == Chain(CustomerWords(p), rest)
    ensures ValuesFrom(CUSTOMER, ps, 0) ==
              [Num(p.customerAvg.Value()), Int(Wrap32(NumberOf(p.txCount24h))), Strs(p.knownMerchants)]
  {
    hide *;
    var g, vs := CustomerGroup(p);
    ps := GroupPieces(g, [3, 6, 9], vs, rest);
  }

  lemma MerchantGroup(p: Parts) returns (g: Group, vs: seq<Value>)
    requires PartsFine(p)
    ensures GroupOk(g) && g.steps == MERCHANT && g.words == MerchantWords(p)
    ensures vs == [Str(p.merchantID), Str(p.mcc), Num(p.merchantAvg.Value())]
    ensures ValuesLie(g.vals, 0, [3, 6, 9], vs)
  {
    StringWritten(p.merchantID);
    var a := Field("\"id\"", "\"id\":", StringStep, StringForm(p.merchantID), Quoted(p.merchantID), Str(p.merchantID));
    StringWritten(p.mcc);
    var b := Field("\"mcc\"", "\"mcc\":", StringStep, StringForm(p.mcc), Quoted(p.mcc), Str(p.mcc));
    AmountWritten(p.merchantAvg);
    var c := Field("\"avg_amount\"", "\"avg_amount\":", RealStep, p.merchantAvg.Form(), p.merchantAvg.Text(),
                   Num(p.merchantAvg.Value()));
    hide Written, GroupOk;
    g := ObjectOf("\"merchant\"", "\"merchant\":", a, b, c);
    vs := [a.v, b.v, c.v];
    ThreeLie(g.vals, vs);
  }

  lemma MerchantWritten(p: Parts, rest: string) returns (ps: seq<Piece>)
    requires PartsFine(p)
    ensures PiecesOk(MERCHANT, ps) && TextFrom(MERCHANT, ps, 0, rest) == Chain(MerchantWords(p), rest)
    ensures ValuesFrom(MERCHANT, ps, 0) == [Str(p.merchantID), Str(p.mcc), Num(p.merchantAvg.Value())]
  {
    hide *;
    var g, vs := MerchantGroup(p);
    ps := GroupPieces(g, [3, 6, 9], vs, rest);
  }

  lemma LastKeyOk(g: Group)
    requires g == Group([Key("\"last_transaction\"")], [KeyOf("\"last_transaction\"")], ["\"last_transaction\":"],
                        [Nothing])
    ensures GroupOk(g)
  {
    KeyWritten("\"last_transaction\"", "\"last_transaction\":");
    hide Written;
  }

  lemma ThreeAndOneLie(vals: seq<Value>, vs: seq<Value>)
    requires |vs| == 3 && vs[0] != Nothing && vs[1] != Nothing && vs[2] != Nothing
    requires vals ==
              [Nothing, Nothing, Nothing, vs[0], Nothing, Nothing, vs[1], Nothing, Nothing, vs[2], Nothing, Nothing]
                     + [Nothing]
    ensures ValuesLie(vals, 0, [3, 6, 9], vs)
  {
    var at: seq<nat> := [3, 6, 9];
    assert at[0] == 3 && at[1] == 6 && at[2] == 9;
  }

  lemma TerminalGroup(p: Parts) returns (g: Group, vs: seq<Value>)
    requires PartsFine(p)
    ensures GroupOk(g) && g.steps == TERMINAL && g.words == TerminalWords(p)
    ensures vs == [Flag(p.isOnline), Flag(p.cardPresent), Num(p.kmFromHome.Value())]
    ensures ValuesLie(g.vals, 0, [3, 6, 9], vs)
  {
    TruthWritten(p.isOnline);
    var a := Field("\"is_online\"", "\"is_online\":", BoolStep, BoolForm(p.isOnline), Truth(p.isOnline),
                   Flag(p.isOnline));
    TruthWritten(p.cardPresent);
    var b := Field("\"card_present\"", "\"card_present\":", BoolStep, BoolForm(p.cardPresent), Truth(p.cardPresent),
                   Flag(p.cardPresent));
    AmountWritten(p.kmFromHome);
    var c := Field("\"km_from_home\"", "\"km_from_home\":", RealStep, p.kmFromHome.Form(), p.kmFromHome.Text(),
                   Num(p.kmFromHome.Value()));
    hide Written, GroupOk;
    var terminal := ObjectOf("\"terminal\"", "\"terminal\":", a, b, c);
    var key := Group([Key("\"last_transaction\"")], [KeyOf("\"last_transaction\"")], ["\"last_transaction\":"],
                     [Nothing]);
    LastKeyOk(key);
    JoinOk(terminal, key);
    g := Join(terminal, key);
    vs := [a.v, b.v, c.v];
    ThreeAndOneLie(g.vals, vs);
  }

  lemma TerminalWritten(p: Parts, rest: string) returns (ps: seq<Piece>)
    requires PartsFine(p)
    ensures PiecesOk(TERMINAL, ps) && TextFrom(TERMINAL, ps, 0, rest) == Chain(TerminalWords(p), rest)
    ensures ValuesFrom(TERMINAL, ps, 0) == [Flag(p.isOnline), Flag(p.cardPresent), Num(p.kmFromHome.Value())]
  {
    hide *;
    var g, vs := TerminalGroup(p);
    ps := GroupPieces(g, [3, 6, 9], vs, rest);
  }

  lemma TwoLie(vals: seq<Value>, vs: seq<Value>)
    requires |vs| == 2 && vs[0] != Nothing && vs[1] != Nothing
    requires vals == [Nothing, Nothing, vs[0], Nothing, Nothing, vs[1], Nothing]
    ensures ValuesLie(vals, 0, [2, 5], vs)
  {
    var at: seq<nat> := [2, 5];
    assert at[0] == 2 && at[1] == 5;
  }

  lemma LastGroup(p: Parts) returns (g: Group, vs: seq<Value>)
    requires PartsFine(p) && p.hasLast
    ensures GroupOk(g) && g.steps == LAST && g.words == LastWords(p)
    ensures vs == [Time(CalendarDate(p.lastTimestamp)), Num(p.lastKm.Value())] && ValuesLie(g.vals, 0, [2, 5], vs)
  {
    StampWritten(p.lastTimestamp);
    var a := Field("\"timestamp\"", "\"timestamp\":", TimeStep, TimeForm(p.lastTimestamp),
                   Quoted(StampText(p.lastTimestamp)), Time(CalendarDate(p.lastTimestamp)));
    AmountWritten(p.lastKm);
    var b := Field("\"km_from_current\"", "\"km_from_current\":", RealStep, p.lastKm.Form(), p.lastKm.Text(),
                   Num(p.lastKm.Value()));
    hide Written, GroupOk;
    g := PairOf(a, b);
    vs := [a.v, b.v];
    TwoLie(g.vals, vs);
  }

  lemma LastWritten(p: Parts, rest: string) returns (ps: seq<Piece>)
    requires PartsFine(p) && p.hasLast
    ensures PiecesOk(LAST, ps) && TextFrom(LAST, ps, 0, rest) == Chain(LastWords(p), rest)
    ensures ValuesFrom(LAST, ps, 0) == [Time(CalendarDate(p.lastTimestamp)), Num(p.lastKm.Value())]
  {
    hide *;
    var g, vs := LastGroup(p);
    ps := GroupPieces(g, [2, 5], vs, rest);
  }

  lemma CloseWritten(rest: string) returns (ps: seq<Piece>)
    ensures PiecesOk(CLOSE, ps) && TextFrom(CLOSE, ps, 0, rest) == Chain(["}"], rest) && ValuesFrom(CLOSE, ps, 0) == []
  {
    PunctWritten();
    assert Writes(CLOSE, [UNBRACE], ["}"], [Nothing]);
    hide *;
    ps := Plain([UNBRACE]);
    PlainText(CLOSE, [UNBRACE], ["}"], [Nothing], 0, rest);
    PlainValues(CLOSE, [UNBRACE], ["}"], [Nothing], 0, [], []);
  }

  // ---------- The theorem ----------

  /** The last transaction, or null. */
  lemma LastFormWritten(p: Parts, rest: string) returns (last: LastForm)
    requires PartsFine(p)
    ensures LastOk(last) && LastText(last, rest) == Chain(LastWords(p), rest)
    ensures LastValues(last) ==
              if p.hasLast then (true, [Time(CalendarDate(p.lastTimestamp)), Num(p.lastKm.Value())]) else (false, [])
  {
    if p.hasLast {
      var ps := LastWritten(p, rest);
      last := ObjectForm(ps);
    } else {
      last := NullForm("");
      assert Chain(["null"], rest) == "null" + Chain([], rest);
    }
  }

  lemma ChainWords(p: Parts, rest: string)
    requires PartsFine(p)
    ensures Chain(Words(p), rest) ==
              Chain(OpenWords(p), Chain(TransactionWords(p), Chain(CustomerWords(p), Chain(MerchantWords(p),
                Chain(TerminalWords(p), Chain(LastWords(p), Chain(["}"], rest)))))))
  {
    var w6 := LastWords(p) + ["}"];
    var w5 := TerminalWords(p) + w6;
    var w4 := MerchantWords(p) + w5;
    var w3 := CustomerWords(p) + w4;
    var w2 := TransactionWords(p) + w3;
    assert Words(p) == OpenWords(p) + w2;
    hide *;
    ChainAppend(OpenWords(p), w2, rest);
    ChainAppend(TransactionWords(p), w3, rest);
    ChainAppend(CustomerWords(p), w4, rest);
    ChainAppend(MerchantWords(p), w5, rest);
    ChainAppend(TerminalWords(p), w6, rest);
    ChainAppend(LastWords(p), ["}"], rest);
  }

  /** The fields of the document are those of the request. */
  lemma FieldsAre(p: Parts, f: Fields, before: Request)
    requires PartsFine(p)
    requires f.objects == [[Str(p.id)],
                           [Num(p.amount.Value()), Int(Wrap32(NumberOf(p.installments))),
                            Time(CalendarDate(p.requestedAt))],
                           [Num(p.customerAvg.Value()), Int(Wrap32(NumberOf(p.txCount24h))), Strs(p.knownMerchants)],
                           [Str(p.merchantID), Str(p.mcc), Num(p.merchantAvg.Value())],
                           [Flag(p.isOnline), Flag(p.cardPresent), Num(p.kmFromHome.Value())]]
    requires (f.hasLast, f.last) ==
               if p.hasLast then (true, [Time(CalendarDate(p.lastTimestamp)), Num(p.lastKm.Value())]) else (false, [])
    ensures RequestOf(f, before) == RequestFrom(p, before)
  {
  }

  /** The payload written out is accepted, whatever follows it, and every field of the
      request is the value written after its key. */
  lemma CompactIsRead(p: Parts, before: Request, rest: string)
    requires PartsFine(p)
    ensures ReadPayload(Chain(Words(p), rest)).Got?
    ensures RequestOf(ReadPayload(Chain(Words(p), rest)).value, before) == RequestFrom(p, before)
  {
    ChainWords(p, rest);
    var close := CloseWritten(rest);
    var t6 := Chain(["}"], rest);
    var last := LastFormWritten(p, t6);
    var t5 := Chain(LastWords(p), t6);
    var terminal := TerminalWritten(p, t5);
    var t4 := Chain(TerminalWords(p), t5);
    var merchant := MerchantWritten(p, t4);
    var t3 := Chain(MerchantWords(p), t4);
    var customer := CustomerWritten(p, t3);
    var t2 := Chain(CustomerWords(p), t3);
    var transaction := TransactionWritten(p, t2);
    var open := OpenWritten(p, Chain(TransactionWords(p), t2));
    var d := Document(open, transaction, customer, merchant, terminal, last, close);
    hide PartsFine, PiecesOk, TextFrom, ValuesFrom, LastOk, LastText, LastValues, Chain, ReadPayload, RequestOf;
    assert DocumentOk(d) && DocumentText(d, rest) == Chain(Words(p), rest);
    PrintedIsRead(d, rest);
    FieldsAre(p, DocumentFields(d), before);
  }
}
