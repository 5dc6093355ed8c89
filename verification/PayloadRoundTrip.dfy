/** Whole payloads: what the strict parser accepts, and the proof that it accepts exactly
    the printed payloads and reads back what was printed. */
module PayloadRoundTrip {
  import opened PayloadGrammar
  import opened PayloadPrinter

  // ---------- Scripts ----------

  /** One written step with the spaces around it. */
  datatype Piece = Piece(pre: string, form: Form, post: string)

  predicate PiecesOk(script: seq<Step>, ps: seq<Piece>) {
    && |ps| == |script|
    && forall i :: 0 <= i < |ps| ==> Spaces(ps[i].pre) && FormOk(script[i], ps[i].form) && Spaces(ps[i].post)
  }

  /** The text of the pieces from the i-th on, followed by rest. */
  function TextFrom(script: seq<Step>, ps: seq<Piece>, i: nat, rest: string): string
    requires PiecesOk(script, ps) && i <= |ps|
    decreases |ps| - i
  {
    if i == |ps| then rest
    else ps[i].pre + (FormText(script[i], ps[i].form) + (ps[i].post + TextFrom(script, ps, i + 1, rest)))
  }

  function ValuesFrom(script: seq<Step>, ps: seq<Piece>, i: nat): seq<Value>
    requires PiecesOk(script, ps) && i <= |ps|
    decreases |ps| - i
  {
    if i == |ps| then []
    else
      var v, vs := FormValue(script[i], ps[i].form), ValuesFrom(script, ps, i + 1);
      if v == Nothing then vs else [v] + vs
  }

  /** Punctuation is not part of a number, and nothing starts with a space. */
  predicate StepOk(step: Step) {
    match step
    case Punct(c) => !IsSpace(c) && !IsDigit(c) && c != '.'
    case Key(name) => name != [] && name[0] == '"'
    case _ => true
  }

  /** Punctuation follows every number. */
  predicate ScriptOk(script: seq<Step>) {
    && (forall i :: 0 <= i < |script| ==> StepOk(script[i]))
    && (forall i :: 0 <= i < |script| && (script[i].RealStep? || script[i].IntStep?) ==>
          i + 1 < |script| && script[i + 1].Punct?)
  }

  lemma OuterScriptsOk()
    ensures ScriptOk(OPEN) && ScriptOk(TRANSACTION) && ScriptOk(CLOSE)
  {
  }

  lemma CustomerScriptOk()
    ensures ScriptOk(CUSTOMER)
  {
  }

  lemma MerchantScriptOk()
    ensures ScriptOk(MERCHANT)
  {
  }

  lemma DeviceScriptsOk()
    ensures ScriptOk(TERMINAL) && ScriptOk(LAST)
  {
  }

  lemma FormStarts(step: Step, f: Form)
    requires FormOk(step, f) && StepOk(step)
    ensures FormText(step, f) != [] && !IsSpace(FormText(step, f)[0])
  {
    hide StampText, ItemsText, ItemsOk, Clean;
  }

  lemma SkipNone(t: string)
    requires t == [] || !IsSpace(t[0])
    ensures Skip(t) == t
  {
  }

  /** What follows a number does not extend it. */
  lemma NumberEnds(script: seq<Step>, ps: seq<Piece>, i: nat, rest: string)
    requires ScriptOk(script) && PiecesOk(script, ps) && i < |ps|
    ensures Delimited(ps[i].form, ps[i].post + TextFrom(script, ps, i + 1, rest))
  {
    if script[i].RealStep? || script[i].IntStep? {
      var next := ps[i + 1];
      var c := script[i + 1].c;
      var after := TextFrom(script, ps, i + 1, rest);
      assert after == next.pre + ([c] + (next.post + TextFrom(script, ps, i + 2, rest)));
      assert after[0] == if next.pre == [] then c else next.pre[0];
      var t := ps[i].post + after;
      assert t[0] == if ps[i].post == [] then after[0] else ps[i].post[0];
    }
  }

  /** Reading a printed script yields the printed values and stops at what follows. */
  lemma {:induction false} ScriptReads(script: seq<Step>, ps: seq<Piece>, i: nat, rest: string)
    requires ScriptOk(script) && PiecesOk(script, ps) && i <= |ps|
    ensures Run(script, i, Skip(TextFrom(script, ps, i, rest))) == Got(ValuesFrom(script, ps, i), Skip(rest))
    decreases |ps| - i
  {
    hide Core, FormText, FormValue, FormOk, Delimited, Skip, Spaces;
    if i < |ps| {
      var p := ps[i];
      var next := TextFrom(script, ps, i + 1, rest);
      var word := FormText(script[i], p.form);
      FormStarts(script[i], p.form);
      assert (word + (p.post + next))[0] == word[0];
      SkipSpacesFirst(p.pre, word + (p.post + next));
      SkipNone(word + (p.post + next));
      NumberEnds(script, ps, i, rest);
      FormReads(script[i], p.form, p.post + next);
      SkipSpacesFirst(p.post, next);
      ScriptReads(script, ps, i + 1, rest);
    }
  }

  /** Whatever a script reads was printed, from the i-th step on. */
  lemma {:induction false} ScriptFrom(script: seq<Step>, i: nat, s: string, filler: seq<Piece>) returns (ps: seq<Piece>)
    requires i <= |script| && Run(script, i, s).Got?
    requires |filler| == i && forall j :: 0 <= j < i ==>
               Spaces(filler[j].pre) && FormOk(script[j], filler[j].form) && Spaces(filler[j].post)
    ensures PiecesOk(script, ps) && ps[..i] == filler
    ensures s == TextFrom(script, ps, i, Run(script, i, s).rest) && ValuesFrom(script, ps, i) == Run(script, i, s).value
    decreases |script| - i
  {
    hide Core, FormText, FormValue, FormOk, Delimited, Skip, Spaces;
    if i == |script| {
      ps := filler;
    } else {
      var pre := SkipSplits(s);
      var t := Skip(s);
      var f := FormFrom(script[i], t);
      var u := Core(script[i], t).rest;
      var post := SkipSplits(u);
      ps := ScriptFrom(script, i + 1, Skip(u), filler + [Piece(pre, f, post)]);
      assert ps[i] == (filler + [Piece(pre, f, post)])[i];
      assert ps[..i] == ps[..i + 1][..i];
    }
  }

  // ---------- The last transaction ----------

  /** How the last transaction is written: null, or an object. */
  datatype LastForm = NullForm(pre: string) | ObjectForm(ps: seq<Piece>)

  lemma NullReads(pre: string, end: string)
    requires Spaces(pre)
    ensures var t := Skip(pre + ("null" + end)); "null" <= t && t[4..] == end
  {
    SkipSpacesFirst(pre, "null" + end);
    assert ("null" + end)[0] == 'n';
    SkipNone("null" + end);
  }

  lemma ObjectIsNotNull(ps: seq<Piece>, end: string)
    requires PiecesOk(LAST, ps)
    ensures !("null" <= Skip(TextFrom(LAST, ps, 0, end)))
  {
    var p := ps[0];
    var tail := p.post + TextFrom(LAST, ps, 1, end);
    assert LAST[0] == Punct('{') && FormText(LAST[0], p.form) == ['{'];
    SkipSpacesFirst(p.pre, ['{'] + tail);
    First('{', tail);
  }

  lemma RunSkips(script: seq<Step>, i: nat, s: string)
    requires i < |script|
    ensures Run(script, i, Skip(s)) == Run(script, i, s)
  {
    SkipTwice(s);
  }

  predicate LastOk(last: LastForm) {
    match last
    case NullForm(pre) => Spaces(pre)
    case ObjectForm(ps) => PiecesOk(LAST, ps)
  }

  function LastText(last: LastForm, end: string): string
    requires LastOk(last)
  {
    match last
    case NullForm(pre) => pre + ("null" + end)
    case ObjectForm(ps) => TextFrom(LAST, ps, 0, end)
  }

  function LastValues(last: LastForm): (bool, seq<Value>)
    requires LastOk(last)
  {
    match last
    case NullForm(_) => (false, [])
    case ObjectForm(ps) => (true, ValuesFrom(LAST, ps, 0))
  }

  lemma LastReads(last: LastForm, close: seq<Piece>, rest: string)
    requires LastOk(last) && PiecesOk(CLOSE, close)
    ensures ReadLast(Skip(LastText(last, TextFrom(CLOSE, close, 0, rest)))) == Got(LastValues(last), Skip(rest))
  {
    hide ScriptOk, PiecesOk, Run, TextFrom, ValuesFrom, Skip, Spaces;
    var end := TextFrom(CLOSE, close, 0, rest);
    OuterScriptsOk();
    ScriptReads(CLOSE, close, 0, rest);
    SkipTwice(LastText(last, end));
    match last {
      case NullForm(pre) =>
        NullReads(pre, end);
        RunSkips(CLOSE, 0, end);
      case ObjectForm(ps) =>
        ObjectIsNotNull(ps, end);
        DeviceScriptsOk();
        ScriptReads(LAST, ps, 0, end);
    }
  }

  lemma LastFrom(s: string) returns (last: LastForm, close: seq<Piece>)
    requires ReadLast(s).Got?
    ensures LastOk(last) && PiecesOk(CLOSE, close) && LastValues(last) == ReadLast(s).value
    ensures s == LastText(last, TextFrom(CLOSE, close, 0, ReadLast(s).rest))
  {
    hide ScriptOk, PiecesOk, Run, TextFrom, ValuesFrom, Skip, Spaces;
    var pre := SkipSplits(s);
    var t := Skip(s);
    if "null" <= t {
      close := ScriptFrom(CLOSE, 0, t[4..], []);
      last := NullForm(pre);
      assert t == "null" + t[4..];
    } else {
      RunSkips(LAST, 0, s);
      var ps := ScriptFrom(LAST, 0, s, []);
      last := ObjectForm(ps);
      close := ScriptFrom(CLOSE, 0, Run(LAST, 0, t).rest, []);
    }
  }

  // ---------- Whole payloads ----------

  datatype Document = Document(open: seq<Piece>, transaction: seq<Piece>, customer: seq<Piece>, merchant: seq<Piece>,
                               terminal: seq<Piece>, last: LastForm, close: seq<Piece>)

  predicate DocumentOk(d: Document) {
    && PiecesOk(OPEN, d.open) && PiecesOk(TRANSACTION, d.transaction) && PiecesOk(CUSTOMER, d.customer)
    && PiecesOk(MERCHANT, d.merchant) && PiecesOk(TERMINAL, d.terminal) && LastOk(d.last) && PiecesOk(CLOSE, d.close)
  }

  /** The printed payload, followed by rest. */
  function DocumentText(d: Document, rest: string): string
    requires DocumentOk(d)
  {
    TextFrom(OPEN, d.open, 0, TextFrom(TRANSACTION, d.transaction, 0, TextFrom(CUSTOMER, d.customer, 0,
      TextFrom(MERCHANT, d.merchant, 0, TextFrom(TERMINAL, d.terminal, 0,
        LastText(d.last, TextFrom(CLOSE, d.close, 0, rest)))))))
  }

  /** The values printed. */
  function DocumentFields(d: Document): Fields
    requires DocumentOk(d)
  {
    Fields([ValuesFrom(OPEN, d.open, 0), ValuesFrom(TRANSACTION, d.transaction, 0), ValuesFrom(CUSTOMER, d.customer, 0),
            ValuesFrom(MERCHANT, d.merchant, 0), ValuesFrom(TERMINAL, d.terminal, 0)],
           LastValues(d.last).0, LastValues(d.last).1)
  }

  /** A printed payload is read back, whatever the spaces between its tokens and whatever
      follows it. */
  lemma PrintedIsRead(d: Document, rest: string)
    requires DocumentOk(d)
    ensures ReadPayload(DocumentText(d, rest)) == Got(DocumentFields(d), Skip(rest))
  {
    hide ScriptOk, PiecesOk, Run, TextFrom, ValuesFrom, Skip, LastOk, LastText, LastValues, ReadLast;
    OuterScriptsOk();
    CustomerScriptOk();
    MerchantScriptOk();
    DeviceScriptsOk();
    var tail := LastText(d.last, TextFrom(CLOSE, d.close, 0, rest));
    LastReads(d.last, d.close, rest);
    ScriptReads(TERMINAL, d.terminal, 0, tail);
    var t4 := TextFrom(TERMINAL, d.terminal, 0, tail);
    ScriptReads(MERCHANT, d.merchant, 0, t4);
    var t3 := TextFrom(MERCHANT, d.merchant, 0, t4);
    ScriptReads(CUSTOMER, d.customer, 0, t3);
    var t2 := TextFrom(CUSTOMER, d.customer, 0, t3);
    ScriptReads(TRANSACTION, d.transaction, 0, t2);
    ScriptReads(OPEN, d.open, 0, TextFrom(TRANSACTION, d.transaction, 0, t2));
  }

  /** Whatever is accepted was printed. */
  lemma ReadIsPrinted(s: string) returns (d: Document)
    requires ReadPayload(s).Got?
    ensures DocumentOk(d) && s == DocumentText(d, ReadPayload(s).rest) && DocumentFields(d) == ReadPayload(s).value
  {
    hide ScriptOk, PiecesOk, Run, TextFrom, ValuesFrom, Skip, LastOk, LastText, LastValues, ReadLast;
    RunSkips(OPEN, 0, s);
    var open := ScriptFrom(OPEN, 0, s, []);
    var s1 := Run(OPEN, 0, s).rest;
    var transaction := ScriptFrom(TRANSACTION, 0, s1, []);
    var s2 := Run(TRANSACTION, 0, s1).rest;
    var customer := ScriptFrom(CUSTOMER, 0, s2, []);
    var s3 := Run(CUSTOMER, 0, s2).rest;
    var merchant := ScriptFrom(MERCHANT, 0, s3, []);
    var s4 := Run(MERCHANT, 0, s3).rest;
    var terminal := ScriptFrom(TERMINAL, 0, s4, []);
    var last, close := LastFrom(Run(TERMINAL, 0, s4).rest);
    d := Document(open, transaction, customer, merchant, terminal, last, close);
  }

  /** The parser accepts exactly the printed payloads, with anything after them, and
      yields the values printed. */
  lemma AcceptsExactlyPrinted(s: string, fields: Fields)
    ensures (ReadPayload(s).Got? && ReadPayload(s).value == fields)
            <==> exists d, rest :: DocumentOk(d) && s == DocumentText(d, rest) && DocumentFields(d) == fields
  {
    hide DocumentOk, DocumentText, DocumentFields, ReadPayload;
    if ReadPayload(s).Got? && ReadPayload(s).value == fields {
      var d := ReadIsPrinted(s);
      assert s == DocumentText(d, ReadPayload(s).rest);
    }
    forall d, rest | DocumentOk(d) && s == DocumentText(d, rest) && DocumentFields(d) == fields
      ensures ReadPayload(s).Got? && ReadPayload(s).value == fields
    {
      PrintedIsRead(d, rest);
    }
  }
}
