/** The text format of a saved portfolio. Each investment is written as six
    lines `key = "value"` (type, symbol, name, quantity, price, bookValue)
    followed by an empty line. Loading reads the file line by line, keeps
    the last value seen for each key and commits an investment when it
    reaches a bookValue line; the stored book value itself is parsed but not
    used, because the constructor recomputes it from quantity and price.
    Double.toString and Double.parseDouble are parameters of the model
    (`show` and `read`). */
module Codec {
  import opened Text
  import opened Investments
  import opened PriceRanges

  datatype Option<T> = None | Some(value: T)

  const INT_MIN: int := -0x8000_0000
  const INT_MAX: int := 0x7FFF_FFFF

  // ----- Integer.toString and Integer.parseInt

  /** Integer.toString. */
  function ShowInt(n: int): (s: string)
    ensures s != [] && '=' !in s && '"' !in s
  {
    if n < 0 then "-" + ShowNat(-n) else ShowNat(n)
  }

  /** Integer.parseInt: an optional sign and at least one decimal digit,
      within the 32-bit range; anything else is a NumberFormatException (None). */
  function ParseInt(s: string): (r: Option<int>)
    ensures r.Some? ==> INT_MIN <= r.value <= INT_MAX
    ensures r.Some? ==> s != []
  {
    var negative := s != [] && s[0] == '-';
    var digits := if s != [] && (s[0] == '-' || s[0] == '+') then s[1..] else s;
    if !IsDigits(digits) then None
    else
      var v := if negative then -(DigitsValue(digits) as int) else DigitsValue(digits);
      if INT_MIN <= v <= INT_MAX then Some(v) else None
  }

  /** parseInt reads back what toString writes, over the whole int range. */
  lemma ParseShowInt(n: int)
    requires INT_MIN <= n <= INT_MAX
    ensures ParseInt(ShowInt(n)) == Some(n)
  {
    if n < 0 {
      ShowNatValue(-n);
      assert ("-" + ShowNat(-n))[1..] == ShowNat(-n);
    } else {
      ShowNatValue(n);
      assert IsDigit(ShowNat(n)[0]);
    }
  }

  /** A number beyond the int range is a NumberFormatException. */
  lemma {:induction false} ParseIntOverflow(n: nat)
    requires n > INT_MAX
    ensures ParseInt(ShowNat(n)) == None
  {
    ShowNatValue(n);
    assert IsDigit(ShowNat(n)[0]);
  }

  lemma ParseIntExamples()
    ensures ParseInt("+7") == Some(7) && ParseInt("-") == None && ParseInt("") == None
  {
    assert "+7"[1..] == "7";
    assert DigitsValue("7") == 7;
    assert "-"[1..] == "";
  }

  // ----- saving

  function TypeName(kind: Kind): string {
    if kind == Stock then "stock" else "mutualfund"
  }

  /** One line `key = "value"`. */
  function Line(key: string, value: string): string {
    key + " = \"" + value + "\""
  }

  /** The seven lines saveToFile writes for one investment. */
  function RecordLines(h: Holding, show: real -> string): (r: seq<string>)
    ensures |r| == 7 && r[6] == []
  {
    [Line("type", TypeName(h.kind)),
     Line("symbol", h.symbol),
     Line("name", h.name),
     Line("quantity", ShowInt(h.quantity)),
     Line("price", show(h.price)),
     Line("bookValue", show(h.bookValue)),
     ""]
  }

  /** saveToFile: the records of all investments, in portfolio order. */
  function SaveLines(hs: seq<Holding>, show: real -> string): (r: seq<string>)
    ensures |r| == 7 * |hs|
  {
    if hs == [] then [] else RecordLines(hs[0], show) + SaveLines(hs[1..], show)
  }

  /** Saving one more investment adds its record at the end. */
  lemma {:induction false} SaveLinesAppend(hs: seq<Holding>, h: Holding, show: real -> string)
    ensures SaveLines(hs + [h], show) == SaveLines(hs, show) + RecordLines(h, show)
  {
    if hs == [] {
      assert [h][1..] == [];
    } else {
      assert (hs + [h])[1..] == hs[1..] + [h];
      SaveLinesAppend(hs[1..], h, show);
    }
  }

  // ----- loading

  /** The values read since the last bookValue line: the three strings start
      out null, the quantity 0 and the price 0.0. */
  datatype Pending = Pending(ty: Option<string>, sym: Option<string>, nm: Option<string>, qty: int, px: real)

  const Fresh: Pending := Pending(None, None, None, 0, 0.0)

  /** How a load ends. Complete: the last line was read. BadNumber: a
      NumberFormatException, caught by loadFromFile. MissingValue: a key line
      without a value after "=" (the index 1 of split is out of bounds).
      Rejected: a constructor threw. The last two escape loadFromFile. In
      every case the investments committed before stay in the portfolio. */
  datatype Stop = Complete | BadNumber | MissingValue | Rejected(error: Error)

  /** The effect of one line: go on with new pending values and possibly one
      committed investment, or stop. */
  datatype Step = Continue(next: Pending, committed: seq<Holding>) | Halt(stop: Stop)

  /** The six keys, checked with startsWith in this order; NoKey for a line
      that starts with none of them (it is skipped). */
  datatype Key = TypeKey | SymbolKey | NameKey | QuantityKey | PriceKey | BookValueKey | NoKey

  /** A line as the loop body sees it: its key and the text after "=". */
  datatype Parsed = Parsed(key: Key, field: Option<string>)

  function KeyOf(l: string): Key {
    if StartsWith(l, "type") then TypeKey
    else if StartsWith(l, "symbol") then SymbolKey
    else if StartsWith(l, "name") then NameKey
    else if StartsWith(l, "quantity") then QuantityKey
    else if StartsWith(l, "price") then PriceKey
    else if StartsWith(l, "bookValue") then BookValueKey
    else NoKey
  }

  /** line.split("=")[1].trim().replace("\"", ""), or None when the split has no second piece. */
  function FieldOf(line: string): (r: Option<string>)
    ensures r.Some? ==> '"' !in r.value
  {
    var parts := SplitOn(line, '=');
    if |parts| < 2 then None else Some(RemoveChar(Trim(parts[1]), '"'))
  }

  /** The line is trimmed first; its key picks the branch and the value is
      only looked at inside a branch. */
  function ParseLine(line: string): Parsed {
    var l := Trim(line);
    Parsed(KeyOf(l), FieldOf(l))
  }

  function ParseAll(lines: seq<string>): (r: seq<Parsed>)
    ensures |r| == |lines| && forall k {:trigger r[k]} :: 0 <= k < |lines| ==> r[k] == ParseLine(lines[k])
  {
    seq(|lines|, k requires 0 <= k < |lines| => ParseLine(lines[k]))
  }

  /** The investment a bookValue line commits: a Stock when the type equals
      "stock" ignoring case, otherwise a MutualFund. */
  function Commit(p: Pending): (r: Step)
    requires p.ty.Some? && p.sym.Some? && p.nm.Some?
    ensures r.Continue? ==> r.next == Fresh && |r.committed| == 1 && IsValid(r.committed[0])
    ensures r.Continue? ==> var h := r.committed[0];
              h.symbol == p.sym.value && h.name == Trim(p.nm.value) && h.quantity == p.qty && h.price == p.px
              && h.bookValue == InitialBookValue(h.kind, h.quantity, h.price)
  {
    var kind := KindNamed(p.ty.value);
    var h := NewHolding(kind, p.sym.value, p.nm.value, p.qty, p.px);
    if h.Err? then Halt(Rejected(h.error)) else Continue(Fresh, [h.value])
  }

  /** One iteration of the loop of loadFromFile. */
  function StepLine(p: Pending, line: Parsed, read: string -> Option<real>): (r: Step)
    ensures r.Continue? && r.committed != [] ==>
              line.key == BookValueKey && r.next == Fresh && |r.committed| == 1 && IsValid(r.committed[0])
              && r.committed[0].bookValue == InitialBookValue(r.committed[0].kind, r.committed[0].quantity, r.committed[0].price)
  {
    var f := line.field;
    if line.key == NoKey then Continue(p, [])
    else if f.None? then Halt(MissingValue)
    else
      match line.key
      case TypeKey => Continue(p.(ty := Some(f.value)), [])
      case SymbolKey => Continue(p.(sym := Some(f.value)), [])
      case NameKey => Continue(p.(nm := Some(f.value)), [])
      case QuantityKey =>
        if ParseInt(f.value).None? then Halt(BadNumber) else Continue(p.(qty := ParseInt(f.value).value), [])
      case PriceKey =>
        if read(f.value).None? then Halt(BadNumber) else Continue(p.(px := read(f.value).value), [])
      case BookValueKey =>
        if read(f.value).None? then Halt(BadNumber)
        else if p.ty.Some? && p.sym.Some? && p.nm.Some? then Commit(p)
        else Continue(Fresh, [])
  }

  /** What loading commits, in order, and how it ends. */
  datatype Loaded = Loaded(records: seq<Holding>, stop: Stop)

  predicate AllValid(hs: seq<Holding>) {
    forall k :: 0 <= k < |hs| ==> IsValid(hs[k])
  }

  /** The loop of loadFromFile over the remaining lines, from the given
      pending values onwards. Every investment it commits passed the
      constructor's checks. */
  function Run(p: Pending, lines: seq<Parsed>, read: string -> Option<real>): (r: Loaded)
    ensures AllValid(r.records)
    decreases |lines|
  {
    if lines == [] then Loaded([], Complete)
    else
      match StepLine(p, lines[0], read)
      case Halt(s) => Loaded([], s)
      case Continue(next, c) =>
        var rest := Run(next, lines[1..], read);
        Loaded(c + rest.records, rest.stop)
  }

  /** loadFromFile on the lines of a file. */
  function Load(lines: seq<string>, read: string -> Option<real>): Loaded {
    Run(Fresh, ParseAll(lines), read)
  }

  /** Lines that start with none of the keys, blank lines among them, change nothing. */
  lemma SkippedLine(p: Pending, line: string, read: string -> Option<real>)
    requires KeyOf(Trim(line)) == NoKey
    ensures StepLine(p, ParseLine(line), read) == Continue(p, [])
  {
  }

  lemma ParseAllAppend(a: seq<string>, b: seq<string>)
    ensures ParseAll(a + b) == ParseAll(a) + ParseAll(b)
  {
  }

  /** Loading stops at the first line that stops it: what a prefix of the
      lines commits is committed by every extension of it, and once the
      prefix has stopped, nothing more is committed. */
  lemma {:induction false} RunPrefix(p: Pending, a: seq<Parsed>, b: seq<Parsed>, read: string -> Option<real>)
    ensures Run(p, a, read).records <= Run(p, a + b, read).records
    ensures Run(p, a, read).stop != Complete ==> Run(p, a + b, read) == Run(p, a, read)
    decreases |a|
  {
    if a != [] {
      assert (a + b)[0] == a[0];
      assert (a + b)[1..] == a[1..] + b;
      match StepLine(p, a[0], read)
      case Halt(_) =>
      case Continue(next, _) =>
        RunPrefix(next, a[1..], b, read);
    }
  }

  // ----- the round trip

  /** What a saved investment becomes when it is loaded again: the book
      value is recomputed from quantity and price. */
  function Reloaded(h: Holding): (r: Holding)
    ensures SameIdentity(r, h) && r.quantity == h.quantity && r.price == h.price
  {
    h.(bookValue := InitialBookValue(h.kind, h.quantity, h.price))
  }

  function ReloadedAll(hs: seq<Holding>): (r: seq<Holding>)
    ensures |r| == |hs| && forall k {:trigger r[k]} :: 0 <= k < |hs| ==> r[k] == Reloaded(hs[k])
  {
    if hs == [] then [] else [Reloaded(hs[0])] + ReloadedAll(hs[1..])
  }

  /** An investment the format can carry: valid, a name free of the two
      characters the loader treats specially and of line breaks (readLine
      would split the name line in two), a quantity that fits an int. */
  predicate Saveable(h: Holding) {
    && IsValid(h) && '"' !in h.name && '=' !in h.name
    && '\n' !in h.name && '\r' !in h.name
    && h.quantity <= INT_MAX
  }

  /** Number formatting that stays clear of the format's quote and separator
      and of line breaks, and whose text for this investment's price and book
      value parses back to those values. */
  ghost predicate ReadsBack(h: Holding, show: real -> string, read: string -> Option<real>) {
    && (forall x :: '"' !in show(x) && '=' !in show(x) && '\n' !in show(x) && '\r' !in show(x))
    && read(show(h.price)) == Some(h.price)
    && read(show(h.bookValue)) == Some(h.bookValue)
  }

  lemma {:induction false} QuotedValue(value: string)
    requires '"' !in value
    ensures RemoveChar(Trim(" \"" + value + "\""), '"') == value
  {
    var q := "\"" + value + "\"";
    var b := " \"" + value + "\"";
    assert b == [' '] + q;
    assert b[1..] == q;
    assert TrimLeft(b) == TrimLeft(q);
    assert Trim(b) == Trim(q);
    TrimmedUnchanged(q);
    RemoveCharConcat("\"" + value, "\"", '"');
    RemoveCharConcat("\"", value, '"');
    assert RemoveChar("\"", '"') == [];
  }

  /** A line starts with its own key and with no key of another first letter. */
  lemma {:induction false} LineKey(key: string, value: string, other: string)
    requires key != []
    ensures StartsWith(Line(key, value), key)
    ensures other != [] && other[0] != key[0] ==> !StartsWith(Line(key, value), other)
  {
    var l := Line(key, value);
    assert l[..|key|] == key;
    assert l[0] == key[0];
  }

  /** A written line is read back as its value. */
  lemma {:induction false} LineValue(key: string, value: string)
    requires key != [] && !IsTrimmable(key[0]) && '=' !in key
    requires '"' !in value && '=' !in value
    ensures ParseLine(Line(key, value)).field == Some(value)
  {
    var l := Line(key, value);
    var a := key + " ";
    var b := " \"" + value + "\"";
    assert l == a + ['='] + b;
    TrimmedUnchanged(l);
    SplitOnOne(a, b, '=');
    QuotedValue(value);
  }

  lemma {:induction false} TypeLineKey(l: string, value: string)
    requires '"' !in value && '=' !in value && l == Line("type", value)
    ensures ParseLine(l) == Parsed(TypeKey, Some(value))
  {
    LineValue("type", value);
    TrimmedUnchanged(l);
    LineKey("type", value, "");
  }

  lemma {:induction false} SymbolLineKey(l: string, value: string)
    requires '"' !in value && '=' !in value && l == Line("symbol", value)
    ensures ParseLine(l) == Parsed(SymbolKey, Some(value))
  {
    LineValue("symbol", value);
    TrimmedUnchanged(l);
    LineKey("symbol", value, "type");
  }

  lemma {:induction false} NameLineKey(l: string, value: string)
    requires '"' !in value && '=' !in value && l == Line("name", value)
    ensures ParseLine(l) == Parsed(NameKey, Some(value))
  {
    LineValue("name", value);
    TrimmedUnchanged(l);
    LineKey("name", value, "type");
    LineKey("name", value, "symbol");
  }

  lemma {:induction false} QuantityLineKey(l: string, value: string)
    requires '"' !in value && '=' !in value && l == Line("quantity", value)
    ensures ParseLine(l) == Parsed(QuantityKey, Some(value))
  {
    LineValue("quantity", value);
    TrimmedUnchanged(l);
    LineKey("quantity", value, "type");
    LineKey("quantity", value, "symbol");
    LineKey("quantity", value, "name");
  }

  lemma {:induction false} PriceLineKey(l: string, value: string)
    requires '"' !in value && '=' !in value && l == Line("price", value)
    ensures ParseLine(l) == Parsed(PriceKey, Some(value))
  {
    LineValue("price", value);
    TrimmedUnchanged(l);
    LineKey("price", value, "type");
    LineKey("price", value, "symbol");
    LineKey("price", value, "name");
    LineKey("price", value, "quantity");
  }

  lemma {:induction false} BookValueLineKey(l: string, value: string)
    requires '"' !in value && '=' !in value && l == Line("bookValue", value)
    ensures ParseLine(l) == Parsed(BookValueKey, Some(value))
  {
    LineValue("bookValue", value);
    TrimmedUnchanged(l);
    LineKey("bookValue", value, "type");
    LineKey("bookValue", value, "symbol");
    LineKey("bookValue", value, "name");
    LineKey("bookValue", value, "quantity");
    LineKey("bookValue", value, "price");
  }

  /** How the seven lines of a saved record are parsed. */
  function RecordParsed(h: Holding, show: real -> string): seq<Parsed> {
    [Parsed(TypeKey, Some(TypeName(h.kind))),
     Parsed(SymbolKey, Some(h.symbol)),
     Parsed(NameKey, Some(h.name)),
     Parsed(QuantityKey, Some(ShowInt(h.quantity))),
     Parsed(PriceKey, Some(show(h.price))),
     Parsed(BookValueKey, Some(show(h.bookValue))),
     Parsed(NoKey, None)]
  }

  lemma RecordTypeParses(h: Holding, show: real -> string)
    requires Saveable(h)
    ensures ParseLine(RecordLines(h, show)[0]) == Parsed(TypeKey, Some(TypeName(h.kind)))
  {
    TypeLineKey(RecordLines(h, show)[0], TypeName(h.kind));
  }

  lemma RecordSymbolParses(h: Holding, show: real -> string)
    requires Saveable(h)
    ensures ParseLine(RecordLines(h, show)[1]) == Parsed(SymbolKey, Some(h.symbol))
  {
    assert IsSymbolChar(h.symbol[0]);
    SymbolLineKey(RecordLines(h, show)[1], h.symbol);
  }

  lemma RecordNameParses(h: Holding, show: real -> string)
    requires Saveable(h)
    ensures ParseLine(RecordLines(h, show)[2]) == Parsed(NameKey, Some(h.name))
  {
    NameLineKey(RecordLines(h, show)[2], h.name);
  }

  lemma RecordQuantityParses(h: Holding, show: real -> string)
    ensures ParseLine(RecordLines(h, show)[3]) == Parsed(QuantityKey, Some(ShowInt(h.quantity)))
  {
    QuantityLineKey(RecordLines(h, show)[3], ShowInt(h.quantity));
  }

  lemma RecordPriceParses(h: Holding, show: real -> string)
    requires forall x :: '"' !in show(x) && '=' !in show(x)
    ensures ParseLine(RecordLines(h, show)[4]) == Parsed(PriceKey, Some(show(h.price)))
  {
    PriceLineKey(RecordLines(h, show)[4], show(h.price));
  }

  lemma RecordBookValueParses(h: Holding, show: real -> string)
    requires forall x :: '"' !in show(x) && '=' !in show(x)
    ensures ParseLine(RecordLines(h, show)[5]) == Parsed(BookValueKey, Some(show(h.bookValue)))
  {
    BookValueLineKey(RecordLines(h, show)[5], show(h.bookValue));
  }

  lemma RecordBlankParses(h: Holding, show: real -> string)
    ensures ParseLine(RecordLines(h, show)[6]) == Parsed(NoKey, None)
  {
    assert Trim(RecordLines(h, show)[6]) == "";
  }

  /** Parsing seven lines one by one is parsing them all. */
  lemma ParseSeven(ls: seq<string>, ps: seq<Parsed>)
    requires |ls| == 7 && |ps| == 7
    requires ParseLine(ls[0]) == ps[0] && ParseLine(ls[1]) == ps[1] && ParseLine(ls[2]) == ps[2]
    requires ParseLine(ls[3]) == ps[3] && ParseLine(ls[4]) == ps[4] && ParseLine(ls[5]) == ps[5]
    requires ParseLine(ls[6]) == ps[6]
    ensures ParseAll(ls) == ps
  {
    var r := ParseAll(ls);
    assert r[0] == ps[0] && r[1] == ps[1] && r[2] == ps[2] && r[3] == ps[3];
    assert r[4] == ps[4] && r[5] == ps[5] && r[6] == ps[6];
  }

  lemma RecordParses(h: Holding, show: real -> string)
    requires Saveable(h)
    requires forall x :: '"' !in show(x) && '=' !in show(x)
    ensures ParseAll(RecordLines(h, show)) == RecordParsed(h, show)
  {
    RecordTypeParses(h, show);
    RecordSymbolParses(h, show);
    RecordNameParses(h, show);
    RecordQuantityParses(h, show);
    RecordPriceParses(h, show);
    RecordBookValueParses(h, show);
    RecordBlankParses(h, show);
    ParseSeven(RecordLines(h, show), RecordParsed(h, show));
  }

  /** The type written for a class is read back as that class. */
  lemma TypeNameKind(kind: Kind)
    ensures KindNamed(TypeName(kind)) == kind
  {
    if kind == MutualFund {
      assert |TypeName(kind)| != |"stock"|;
    }
  }

  /** The pending values of a record read up to its bookValue line commit
      the record with its book value recomputed. */
  lemma CommitRecord(h: Holding)
    requires Saveable(h)
    ensures Commit(Pending(Some(TypeName(h.kind)), Some(h.symbol), Some(h.name), h.quantity, h.price))
            == Continue(Fresh, [Reloaded(h)])
  {
    TypeNameKind(h.kind);
    TrimmedUnchanged(h.name);
  }

  /** The pending values after the first k lines of a record. */
  function PendingAfter(h: Holding, k: nat): Pending {
    var t := Some(TypeName(h.kind));
    if k == 0 then Fresh
    else if k == 1 then Pending(t, None, None, 0, 0.0)
    else if k == 2 then Pending(t, Some(h.symbol), None, 0, 0.0)
    else if k == 3 then Pending(t, Some(h.symbol), Some(h.name), 0, 0.0)
    else if k == 4 then Pending(t, Some(h.symbol), Some(h.name), h.quantity, 0.0)
    else if k == 5 then Pending(t, Some(h.symbol), Some(h.name), h.quantity, h.price)
    else Fresh
  }

  /** Every line of a record but the book value line moves the pending
      values one step on without committing anything. */
  lemma RecordSteps(h: Holding, show: real -> string, read: string -> Option<real>)
    requires Saveable(h) && ReadsBack(h, show, read)
    ensures forall k :: 0 <= k < 7 && k != 5 ==>
              StepLine(PendingAfter(h, k), RecordParsed(h, show)[k], read) == Continue(PendingAfter(h, k + 1), [])
  {
    var ls := RecordParsed(h, show);
    ParseShowInt(h.quantity);
    assert read(show(h.price)) == Some(h.price);
    assert StepLine(PendingAfter(h, 0), ls[0], read) == Continue(PendingAfter(h, 1), []);
    assert StepLine(PendingAfter(h, 1), ls[1], read) == Continue(PendingAfter(h, 2), []);
    assert StepLine(PendingAfter(h, 2), ls[2], read) == Continue(PendingAfter(h, 3), []);
    assert StepLine(PendingAfter(h, 3), ls[3], read) == Continue(PendingAfter(h, 4), []);
    assert StepLine(PendingAfter(h, 4), ls[4], read) == Continue(PendingAfter(h, 5), []);
    assert StepLine(PendingAfter(h, 6), ls[6], read) == Continue(PendingAfter(h, 7), []);
  }

  /** The book value line, read after the first five, commits the record, reloaded. */
  lemma CommitStep(h: Holding, show: real -> string, read: string -> Option<real>)
    requires Saveable(h) && ReadsBack(h, show, read)
    ensures StepLine(PendingAfter(h, 5), RecordParsed(h, show)[5], read) == Continue(Fresh, [Reloaded(h)])
  {
    assert read(show(h.bookValue)) == Some(h.bookValue);
    CommitRecord(h);
  }

  /** Reading the seven parsed lines of one record commits that record, reloaded. */
  lemma {:induction false} RecordRuns(h: Holding, rest: seq<Parsed>, show: real -> string, read: string -> Option<real>)
    requires Saveable(h) && ReadsBack(h, show, read)
    ensures Run(Fresh, RecordParsed(h, show) + rest, read)
            == Loaded([Reloaded(h)] + Run(Fresh, rest, read).records, Run(Fresh, rest, read).stop)
  {
    var ls := RecordParsed(h, show) + rest;
    RecordSteps(h, show, read);
    CommitStep(h, show, read);
    var r := Run(Fresh, rest, read);
    assert forall k :: 0 <= k < 7 ==> ls[k] == RecordParsed(h, show)[k];
    assert ls[6..] == [Parsed(NoKey, None)] + rest;
    assert Run(Fresh, ls[6..], read) == r;
    assert Run(PendingAfter(h, 5), ls[5..], read) == Loaded([Reloaded(h)] + r.records, r.stop);
    assert Run(PendingAfter(h, 4), ls[4..], read) == Run(PendingAfter(h, 5), ls[5..], read);
    assert Run(PendingAfter(h, 3), ls[3..], read) == Run(PendingAfter(h, 4), ls[4..], read);
    assert Run(PendingAfter(h, 2), ls[2..], read) == Run(PendingAfter(h, 3), ls[3..], read);
    assert Run(PendingAfter(h, 1), ls[1..], read) == Run(PendingAfter(h, 2), ls[2..], read);
    assert Run(Fresh, ls, read) == Run(PendingAfter(h, 1), ls[1..], read);
  }

  /** The hypothesis of LoadSave can be met: a printer that gives the price
      and the book value of h texts of their own, and a reader that maps
      those texts back. */
  lemma ReadsBackMet(h: Holding)
    ensures ReadsBack(h, x => if x == h.price then "1" else "2",
                         t => if t == "1" then Some(h.price) else Some(h.bookValue))
  {
  }

  /** Loading what was saved gives back every investment in order, with its
      book value recomputed from quantity and price, and reaches the end. */
  lemma {:induction false} LoadSave(hs: seq<Holding>, show: real -> string, read: string -> Option<real>)
    requires forall k :: 0 <= k < |hs| ==> Saveable(hs[k]) && ReadsBack(hs[k], show, read)
    ensures Load(SaveLines(hs, show), read) == Loaded(ReloadedAll(hs), Complete)
  {
    if hs != [] {
      var lines := SaveLines(hs, show);
      var tail := SaveLines(hs[1..], show);
      LoadSave(hs[1..], show, read);
      RecordParses(hs[0], show);
      ParseAllAppend(RecordLines(hs[0], show), tail);
      RecordRuns(hs[0], ParseAll(tail), show, read);
    }
  }
}
