/** The portfolio: an ordered list of investment objects and the keyword index
    over their names. The pure part of this module says, on the values of the
    holdings, what each operation of the portfolio does; the class Portfolio
    below carries the state and is proved against it. */
module Portfolios {
  import opened Text
  import opened Investments
  import opened KeywordIndex
  import opened PriceRanges
  import opened Codec

  // ----- the holdings and their tokens

  /** The token lists of the holdings' names, in portfolio order. */
  function Tokens(hs: seq<Holding>): (r: seq<seq<string>>)
    ensures |r| == |hs|
  {
    seq(|hs|, i requires 0 <= i < |hs| => SplitWords(hs[i].name))
  }

  lemma TokensAt(hs: seq<Holding>, i: int)
    requires 0 <= i < |hs|
    ensures Tokens(hs)[i] == SplitWords(hs[i].name)
  {
  }

  lemma TokensAppend(hs: seq<Holding>, h: Holding)
    ensures Tokens(hs + [h]) == Tokens(hs) + [SplitWords(h.name)]
  {
    assert |Tokens(hs + [h])| == |Tokens(hs) + [SplitWords(h.name)]|;
  }

  lemma TokensRemove(hs: seq<Holding>, j: int)
    requires 0 <= j < |hs|
    ensures Tokens(RemoveAt(hs, j)) == RemoveAt(Tokens(hs), j)
  {
    var l, r := Tokens(RemoveAt(hs, j)), RemoveAt(Tokens(hs), j);
    forall i | 0 <= i < |l| ensures l[i] == r[i] {
      var i' := if i < j then i else i + 1;
      assert RemoveAt(hs, j)[i] == hs[i'];
      assert r[i] == Tokens(hs)[i'];
    }
  }

  /** No two holdings have symbols equal ignoring case. */
  predicate UniqueSymbols(hs: seq<Holding>) {
    forall i, k :: 0 <= i < k < |hs| ==> !EqualsIgnoreCase(hs[i].symbol, hs[k].symbol)
  }

  /** Two symbols that pass validateSymbol are equal ignoring case only when
      they are equal. */
  lemma {:induction false} SymbolsIgnoreCase(a: string, b: string)
    requires IsValidSymbol(a) && IsValidSymbol(b)
    ensures EqualsIgnoreCase(a, b) <==> a == b
  {
    if EqualsIgnoreCase(a, b) {
      forall k | 0 <= k < |a| ensures a[k] == b[k] {
        assert IsSymbolChar(a[k]) && IsSymbolChar(b[k]);
      }
    }
  }

  // ----- findInvestment

  /** The position findInvestment stops at: the first holding whose symbol
      equals the given one ignoring case, or -1 when there is none. */
  function FindPos(hs: seq<Holding>, symbol: string): (r: int)
    ensures -1 <= r < |hs|
    ensures r >= 0 ==> EqualsIgnoreCase(hs[r].symbol, symbol)
    ensures forall k :: 0 <= k < |hs| && (r < 0 || k < r) ==> !EqualsIgnoreCase(hs[k].symbol, symbol)
  {
    if hs == [] then -1
    else if EqualsIgnoreCase(hs[0].symbol, symbol) then 0
    else
      var r := FindPos(hs[1..], symbol);
      if r < 0 then -1 else r + 1
  }

  // ----- indexOf

  /** investments.indexOf(x) on values: the first holding that equals x,
      that is, of the same class with the same symbol and name; -1 when
      there is none. */
  function IndexOfValue(hs: seq<Holding>, x: Holding): (r: int)
    ensures -1 <= r < |hs|
    ensures r >= 0 ==> SameIdentity(hs[r], x)
    ensures forall k :: 0 <= k < |hs| && (r < 0 || k < r) ==> !SameIdentity(hs[k], x)
  {
    if hs == [] then -1
    else if SameIdentity(hs[0], x) then 0
    else
      var r := IndexOfValue(hs[1..], x);
      if r < 0 then -1 else r + 1
  }

  /** sellInvestment removes the investment findInvestment found: indexOf of
      the sold copy, whose class, symbol and name are those of the stored
      investment, stops at the position findInvestment stopped at. */
  lemma {:induction false} IndexOfFound(hs: seq<Holding>, symbol: string, x: Holding)
    requires FindPos(hs, symbol) >= 0 && SameIdentity(x, hs[FindPos(hs, symbol)])
    ensures IndexOfValue(hs, x) == FindPos(hs, symbol)
  {
    assert SameIdentity(hs[FindPos(hs, symbol)], x);
  }

  // ----- getTotalGain

  /** The gains of the holdings added up in list order. */
  function TotalGain(hs: seq<Holding>): real {
    if hs == [] then 0.0 else TotalGain(hs[..|hs| - 1]) + Gain(hs[|hs| - 1])
  }

  lemma {:induction false} TotalGainConcat(a: seq<Holding>, b: seq<Holding>)
    ensures TotalGain(a + b) == TotalGain(a) + TotalGain(b)
    decreases |b|
  {
    if b == [] {
      assert a + b == a;
    } else {
      var init := b[..|b| - 1];
      TotalGainConcat(a, init);
      assert (a + b)[..|a + b| - 1] == a + init;
    }
  }

  /** Taking one holding out of the portfolio takes its gain out of the total. */
  lemma {:induction false} TotalGainRemove(hs: seq<Holding>, j: int)
    requires 0 <= j < |hs|
    ensures TotalGain(RemoveAt(hs, j)) == TotalGain(hs) - Gain(hs[j])
  {
    assert hs == hs[..j] + ([hs[j]] + hs[j + 1..]);
    TotalGainConcat(hs[..j], [hs[j]] + hs[j + 1..]);
    TotalGainConcat([hs[j]], hs[j + 1..]);
    TotalGainConcat(hs[..j], hs[j + 1..]);
    assert TotalGain([hs[j]]) == TotalGain([]) + Gain(hs[j]);
  }

  // ----- buyInvestment

  /** buyInvestment on the values of the holdings: the first check that
      throws, or the holdings afterwards. A symbol already held leaves the
      holdings as they are, because the purchase is applied to a copy. */
  function Bought(hs: seq<Holding>, ty: string, symbol: string, name: string, quantity: int, price: real)
    : (r: Result<seq<Holding>>)
  {
    var s := ValidateSymbol(symbol);
    if s.Err? then Err(s.error) else
    var n := ValidateName(name);
    if n.Err? then Err(n.error) else
    var q := ValidateQuantity(quantity);
    if q.Err? then Err(q.error) else
    var p := ValidatePrice(price);
    if p.Err? then Err(p.error) else
    if FindPos(hs, s.value) >= 0 then Ok(hs)
    else
      TrimIdempotent(name);
      Ok(hs + [NewHolding(KindNamed(ty), s.value, n.value, q.value, p.value).value])
  }

  /** The arguments are checked in the order symbol, name, quantity, price,
      and the purchase fails exactly when one of them is rejected. */
  lemma BuyChecks(hs: seq<Holding>, ty: string, symbol: string, name: string, quantity: int, price: real)
    ensures Bought(hs, ty, symbol, name, quantity, price).Ok?
            <==> IsValidSymbol(symbol) && !IsBlank(name) && quantity > 0 && price > 0.0
    ensures Bought(hs, ty, symbol, name, quantity, price).Err? ==>
              Bought(hs, ty, symbol, name, quantity, price).error
              == (if !IsValidSymbol(symbol) then InvalidSymbol
                  else if IsBlank(name) then InvalidName
                  else if quantity <= 0 then InvalidQuantity
                  else InvalidPrice)
  {
  }

  /** A symbol already held (ignoring case) leaves the holdings unchanged; a
      new symbol appends one holding at the end: a Stock when the type is
      "stock" ignoring case, otherwise a MutualFund, with the trimmed name and
      the initial book value of its class. */
  lemma {:induction false} BuyEffect(hs: seq<Holding>, ty: string, symbol: string, name: string, quantity: int, price: real)
    requires Bought(hs, ty, symbol, name, quantity, price).Ok?
    ensures var r := Bought(hs, ty, symbol, name, quantity, price).value;
      && (FindPos(hs, symbol) >= 0 ==> r == hs)
      && (FindPos(hs, symbol) < 0 ==>
            && NewHolding(KindNamed(ty), symbol, Trim(name), quantity, price).Ok?
            && r == hs + [NewHolding(KindNamed(ty), symbol, Trim(name), quantity, price).value])
  {
    TrimIdempotent(name);
  }

  /** Appending a valid holding whose symbol is not yet held keeps the
      holdings valid and their symbols unique. */
  lemma {:induction false} AppendPreserves(hs: seq<Holding>, h: Holding)
    requires AllValid(hs) && IsValid(h)
    ensures AllValid(hs + [h])
    ensures UniqueSymbols(hs) && FindPos(hs, h.symbol) < 0 ==> UniqueSymbols(hs + [h])
  {
    var r := hs + [h];
    assert forall i :: 0 <= i < |hs| ==> r[i] == hs[i];
    if UniqueSymbols(hs) && FindPos(hs, h.symbol) < 0 {
      forall i, k | 0 <= i < k < |r| ensures !EqualsIgnoreCase(r[i].symbol, r[k].symbol) {
        if k == |hs| {
          SymbolsIgnoreCase(hs[i].symbol, h.symbol);
          SymbolsIgnoreCase(h.symbol, hs[i].symbol);
        }
      }
    }
  }

  /** Removing a holding keeps the others valid and their symbols unique. */
  lemma RemovePreserves(hs: seq<Holding>, j: int)
    requires 0 <= j < |hs|
    ensures AllValid(hs) ==> AllValid(RemoveAt(hs, j))
    ensures UniqueSymbols(hs) ==> UniqueSymbols(RemoveAt(hs, j))
  {
    var r := RemoveAt(hs, j);
    assert forall i :: 0 <= i < |r| ==> r[i] == hs[if i < j then i else i + 1];
  }

  /** Appending a valid holding and indexing its name at the new last
      position keeps the holdings valid and the index consistent with them. */
  lemma {:induction false} ConsistentAfterAdd(hs: seq<Holding>, m: Index, h: Holding, hs': seq<Holding>, m': Index)
    requires AllValid(hs) && m == IndexOf(Tokens(hs)) && IsValid(h)
    requires hs' == hs + [h] && m' == AddWords(m, SplitWords(h.name), |hs|)
    ensures AllValid(hs') && m' == IndexOf(Tokens(hs'))
  {
    TokensAppend(hs, h);
    IndexAppend(Tokens(hs), SplitWords(h.name));
    AppendPreserves(hs, h);
  }

  /** Removing the holding at j and renumbering the index keeps the holdings
      valid and the index consistent with the holdings that are left. */
  lemma ConsistentAfterRemove(hs: seq<Holding>, m: Index, j: int, hs': seq<Holding>, m': Index)
    requires AllValid(hs) && m == IndexOf(Tokens(hs)) && 0 <= j < |hs|
    requires hs' == RemoveAt(hs, j) && m' == RemoveFromIndex(m, j)
    ensures AllValid(hs') && m' == IndexOf(Tokens(hs'))
  {
    TokensRemove(hs, j);
    IndexRemove(Tokens(hs), j);
    RemovePreserves(hs, j);
  }

  /** Buying keeps every holding valid and, when no two symbols were equal
      ignoring case, keeps it so. */
  lemma BuyPreserves(hs: seq<Holding>, ty: string, symbol: string, name: string, quantity: int, price: real)
    requires AllValid(hs)
    requires Bought(hs, ty, symbol, name, quantity, price).Ok?
    ensures AllValid(Bought(hs, ty, symbol, name, quantity, price).value)
    ensures UniqueSymbols(hs) ==> UniqueSymbols(Bought(hs, ty, symbol, name, quantity, price).value)
  {
    BuyEffect(hs, ty, symbol, name, quantity, price);
    if FindPos(hs, symbol) < 0 {
      var r := Bought(hs, ty, symbol, name, quantity, price).value;
      var h := r[|hs|];
      assert r == hs + [h];
      AppendPreserves(hs, h);
    }
  }

  /** A purchase of a new symbol lowers the total gain by the buy fee of its
      class (the commission for a stock, nothing for a fund); a purchase of a
      symbol already held leaves it as it was. */
  lemma {:induction false} BuyGain(hs: seq<Holding>, ty: string, symbol: string, name: string, quantity: int, price: real)
    requires Bought(hs, ty, symbol, name, quantity, price).Ok?
    ensures TotalGain(Bought(hs, ty, symbol, name, quantity, price).value)
            == TotalGain(hs) - (if FindPos(hs, symbol) >= 0 then 0.0 else BuyFee(KindNamed(ty)))
  {
    var r := Bought(hs, ty, symbol, name, quantity, price).value;
    BuyEffect(hs, ty, symbol, name, quantity, price);
    if FindPos(hs, symbol) < 0 {
      assert r[..|r| - 1] == hs;
    }
  }

  // ----- sellInvestment

  /** What a successful sale leaves: the holdings afterwards and the proceeds. */
  datatype Sold = Sold(holdings: seq<Holding>, proceeds: real)

  /** sellInvestment on the values of the holdings: the first check that
      throws, the missing symbol, the sell that throws, or the holdings
      afterwards with the proceeds. The holding is removed only when all of
      it is sold; a partial sale acts on a copy and leaves the holdings as
      they are. */
  function SoldFrom(hs: seq<Holding>, symbol: string, quantity: int, price: real): (r: Result<Sold>)
    requires AllValid(hs)
  {
    var s := ValidateSymbol(symbol);
    if s.Err? then Err(s.error) else
    var q := ValidateQuantity(quantity);
    if q.Err? then Err(q.error) else
    var p := ValidatePrice(price);
    if p.Err? then Err(p.error) else
    var j := FindPos(hs, s.value);
    if j < 0 then Err(NotFound) else
    var sale := AfterSell(hs[j], q.value, p.value);
    if sale.Err? then Err(sale.error)
    else if sale.value.after.quantity == 0 then Ok(Sold(RemoveAt(hs, j), sale.value.proceeds))
    else Ok(Sold(hs, sale.value.proceeds))
  }

  /** A sale fails exactly when an argument is rejected (symbol, then
      quantity, then price), the symbol is not held, or more is sold than held. */
  lemma {:induction false} SellChecks(hs: seq<Holding>, symbol: string, quantity: int, price: real)
    requires AllValid(hs)
    ensures var r := SoldFrom(hs, symbol, quantity, price);
      && (r.Err? <==> !IsValidSymbol(symbol) || quantity <= 0 || price <= 0.0 || FindPos(hs, symbol) < 0
                      || quantity > hs[FindPos(hs, symbol)].quantity)
      && (r.Err? ==> r.error == (if !IsValidSymbol(symbol) then InvalidSymbol
                                 else if quantity <= 0 then InvalidQuantity
                                 else if price <= 0.0 then InvalidPrice
                                 else if FindPos(hs, symbol) < 0 then NotFound
                                 else InsufficientQuantity))
  {
  }

  /** A successful sale returns the sale value less the fee of the holding's
      class; it removes the holding exactly when its whole quantity is sold
      and otherwise leaves every holding as it was. */
  lemma {:induction false} SellEffect(hs: seq<Holding>, symbol: string, quantity: int, price: real)
    requires AllValid(hs)
    requires SoldFrom(hs, symbol, quantity, price).Ok?
    ensures var j := FindPos(hs, symbol);
      var r := SoldFrom(hs, symbol, quantity, price).value;
      && 0 <= j < |hs|
      && r.proceeds == quantity as real * price - SellFee(hs[j].kind)
      && r.holdings == (if quantity == hs[j].quantity then RemoveAt(hs, j) else hs)
  {
  }

  /** Selling keeps every holding valid and keeps symbols unique. */
  lemma SellPreserves(hs: seq<Holding>, symbol: string, quantity: int, price: real)
    requires AllValid(hs)
    requires SoldFrom(hs, symbol, quantity, price).Ok?
    ensures AllValid(SoldFrom(hs, symbol, quantity, price).value.holdings)
    ensures UniqueSymbols(hs) ==> UniqueSymbols(SoldFrom(hs, symbol, quantity, price).value.holdings)
  {
    SellEffect(hs, symbol, quantity, price);
    RemovePreserves(hs, FindPos(hs, symbol));
  }

  /** Selling everything takes the holding's gain out of the total gain; a
      partial sale leaves the total as it was. */
  lemma {:induction false} SellGain(hs: seq<Holding>, symbol: string, quantity: int, price: real)
    requires AllValid(hs)
    requires SoldFrom(hs, symbol, quantity, price).Ok?
    ensures var j := FindPos(hs, symbol);
      TotalGain(SoldFrom(hs, symbol, quantity, price).value.holdings)
      == TotalGain(hs) - (if quantity == hs[j].quantity then Gain(hs[j]) else 0.0)
  {
    SellEffect(hs, symbol, quantity, price);
    var j := FindPos(hs, symbol);
    if quantity == hs[j].quantity {
      TotalGainRemove(hs, j);
    }
  }

  // ----- searchInvestments

  /** matchesSymbol: an empty search symbol matches every investment. */
  predicate MatchesSymbol(investmentSymbol: string, searchSymbol: string) {
    searchSymbol == [] || EqualsIgnoreCase(investmentSymbol, searchSymbol)
  }

  /** getAllPositions for n investments. */
  function Positions(n: nat): (r: seq<int>)
    ensures |r| == n && forall i :: 0 <= i < n ==> r[i] == i
  {
    seq(n, i requires 0 <= i < n => i)
  }

  /** The positions a search looks at: the intersection of the keyword
      buckets, or every position when the keyword is blank or the
      intersection is empty. */
  function Candidates(m: Index, keyword: string, n: nat): seq<int> {
    var matched := MatchedPositions(m, keyword);
    if matched == [] then Positions(n) else matched
  }

  /** matchedPositions after the keyword loop: nothing (null) for a blank
      keyword, otherwise the intersection of the buckets of its tokens. */
  function MatchedPositions(m: Index, keyword: string): seq<int> {
    if IsBlank(keyword) then []
    else
      SplitWordsConcat(keyword);
      Matched(m, SplitWords(keyword))
  }

  /** The investments at the given positions that pass the symbol filter and
      the price-range filter, in the order of the positions. The range is
      taken already parsed: matchesPriceRange parses the same string for
      every candidate, and the parse depends on nothing else. */
  function Select(hs: seq<Holding>, ps: seq<int>, symbol: string, rng: Range): (r: seq<Holding>)
    requires forall k :: 0 <= k < |ps| ==> 0 <= ps[k] < |hs|
    ensures |r| <= |ps|
  {
    if ps == [] then []
    else
      var h := hs[ps[|ps| - 1]];
      Select(hs, ps[..|ps| - 1], symbol, rng)
      + (if MatchesSymbol(h.symbol, symbol) && Matches(h.price, rng) then [h] else [])
  }

  /** A holding whose name has every token of the keyword. */
  predicate HasKeywords(hs: seq<Holding>, x: int, keyword: string)
    requires 0 <= x < |hs|
  {
    HasAll(SplitWords(hs[x].name), SplitWords(keyword))
  }

  /** With the index consistent with the holdings, the candidates are the
      positions whose names have every keyword token; every position when
      the keyword is blank or no name has them all. */
  lemma {:induction false} CandidatesMembership(hs: seq<Holding>, keyword: string, x: int)
    ensures x in Candidates(IndexOf(Tokens(hs)), keyword, |hs|)
            <==> 0 <= x < |hs|
                 && (IsBlank(keyword)
                     || (forall y :: 0 <= y < |hs| ==> !HasKeywords(hs, y, keyword))
                     || HasKeywords(hs, x, keyword))
  {
    var n := |hs|;
    var c := Candidates(IndexOf(Tokens(hs)), keyword, n);
    if 0 <= x < n {
      assert Positions(n)[x] == x;
    }
    if !IsBlank(keyword) {
      SplitWordsConcat(keyword);
      var kws := SplitWords(keyword);
      var toks := Tokens(hs);
      var matched := Matched(IndexOf(toks), kws);
      assert MatchedPositions(IndexOf(toks), keyword) == matched;
      MatchedMembership(toks, kws, x);
      if 0 <= x < n {
        TokensAt(hs, x);
      }
      if matched == [] {
        assert c == Positions(n);
        forall y | 0 <= y < n ensures !HasKeywords(hs, y, keyword) {
          MatchedMembership(toks, kws, y);
          TokensAt(hs, y);
        }
      } else {
        assert c == matched;
        var y := matched[0];
        MatchedMembership(toks, kws, y);
        TokensAt(hs, y);
        assert HasKeywords(hs, y, keyword);
        assert x in c <==> 0 <= x < n && HasAll(toks[x], kws);
      }
    }
  }

  /** Every candidate is a position of the holdings, and the candidates are in
      ascending order. */
  lemma CandidatesInRange(hs: seq<Holding>, keyword: string)
    ensures var c := Candidates(IndexOf(Tokens(hs)), keyword, |hs|);
      (forall k :: 0 <= k < |c| ==> 0 <= c[k] < |hs|) && IsSorted(c)
  {
    CandidatesBounded(hs, keyword);
    CandidatesSorted(hs, keyword);
  }

  lemma CandidatesBounded(hs: seq<Holding>, keyword: string)
    ensures var c := Candidates(IndexOf(Tokens(hs)), keyword, |hs|);
      forall k :: 0 <= k < |c| ==> 0 <= c[k] < |hs|
  {
    var c := Candidates(IndexOf(Tokens(hs)), keyword, |hs|);
    forall k | 0 <= k < |c| ensures 0 <= c[k] < |hs| {
      CandidatesMembership(hs, keyword, c[k]);
    }
  }

  lemma CandidatesSorted(hs: seq<Holding>, keyword: string)
    ensures IsSorted(Candidates(IndexOf(Tokens(hs)), keyword, |hs|))
  {
    if !IsBlank(keyword) {
      SplitWordsConcat(keyword);
      MatchedSorted(Tokens(hs), SplitWords(keyword));
    }
  }

  /** searchInvestments on the values of the holdings, with the index that is
      consistent with them. */
  function Search(hs: seq<Holding>, symbol: string, keyword: string, range: string): seq<Holding> {
    CandidatesInRange(hs, keyword);
    Select(hs, Candidates(IndexOf(Tokens(hs)), keyword, |hs|), symbol, Parse(range))
  }

  /** The search over the positions a consistent index yields. */
  lemma SearchByCandidates(hs: seq<Holding>, m: Index, symbol: string, keyword: string, range: string, ps: seq<int>)
    requires m == IndexOf(Tokens(hs))
    requires ps == Candidates(m, keyword, |hs|)
    ensures forall k :: 0 <= k < |ps| ==> 0 <= ps[k] < |hs|
    ensures Search(hs, symbol, keyword, range) == Select(hs, ps, symbol, Parse(range))
  {
    CandidatesInRange(hs, keyword);
  }

  /** What Select keeps: a holding at one of the positions that passes both filters. */
  lemma {:induction false} SelectMembership(hs: seq<Holding>, ps: seq<int>, symbol: string, rng: Range, h: Holding)
    requires forall k :: 0 <= k < |ps| ==> 0 <= ps[k] < |hs|
    ensures h in Select(hs, ps, symbol, rng)
            <==> MatchesSymbol(h.symbol, symbol) && Matches(h.price, rng)
                 && exists k :: 0 <= k < |ps| && hs[ps[k]] == h
  {
    if ps != [] {
      var init := ps[..|ps| - 1];
      SelectMembership(hs, init, symbol, rng, h);
      if exists k :: 0 <= k < |ps| && hs[ps[k]] == h {
        var k :| 0 <= k < |ps| && hs[ps[k]] == h;
        if k < |init| {
          assert hs[init[k]] == h;
        }
      }
      if exists k :: 0 <= k < |init| && hs[init[k]] == h {
        var k :| 0 <= k < |init| && hs[init[k]] == h;
        assert hs[ps[k]] == h;
      }
    }
  }

  /** The search result: exactly the holdings that pass the symbol and price
      filters and whose names have every keyword token, or, when the keyword
      is blank or no name has them all, every holding that passes the two
      filters. */
  lemma SearchMembership(hs: seq<Holding>, symbol: string, keyword: string, range: string, h: Holding)
    ensures h in Search(hs, symbol, keyword, range)
            <==> MatchesSymbol(h.symbol, symbol) && MatchesPriceRange(h.price, range)
                 && exists x :: 0 <= x < |hs| && hs[x] == h
                      && (IsBlank(keyword)
                          || (forall y :: 0 <= y < |hs| ==> !HasKeywords(hs, y, keyword))
                          || HasKeywords(hs, x, keyword))
  {
    var c := Candidates(IndexOf(Tokens(hs)), keyword, |hs|);
    CandidatesInRange(hs, keyword);
    SelectMembership(hs, c, symbol, Parse(range), h);
    if exists k :: 0 <= k < |c| && hs[c[k]] == h {
      var k :| 0 <= k < |c| && hs[c[k]] == h;
      CandidatesMembership(hs, keyword, c[k]);
    }
    if exists x :: 0 <= x < |hs| && hs[x] == h
                   && (IsBlank(keyword)
                       || (forall y :: 0 <= y < |hs| ==> !HasKeywords(hs, y, keyword))
                       || HasKeywords(hs, x, keyword)) {
      var x :| 0 <= x < |hs| && hs[x] == h
               && (IsBlank(keyword)
                   || (forall y :: 0 <= y < |hs| ==> !HasKeywords(hs, y, keyword))
                   || HasKeywords(hs, x, keyword));
      CandidatesMembership(hs, keyword, x);
      var k :| 0 <= k < |c| && c[k] == x;
      assert hs[c[k]] == h;
    }
  }

  /** The tokens of a keyword are lower case already, so the toLowerCase the
      search applies to each of them changes nothing. */
  lemma LowerTokens(keyword: string, i: nat)
    requires i < |SplitWords(keyword)|
    ensures ToLower(SplitWords(keyword)[i]) == SplitWords(keyword)[i]
  {
    var w := SplitWords(keyword)[i];
    forall k | 0 <= k < |w| ensures ToLower(w)[k] == w[k] {
      SplitWordsChars(keyword, i, k);
    }
  }

  // ----- the keyword index: the loops inside updateIndexOnRemoval

  /** positions.removeIf(pos -> pos == removed). */
  method RemoveIfEqual(positions: seq<int>, removed: int) returns (r: seq<int>)
    ensures r == Without(positions, removed)
  {
    r := [];
    for i := 0 to |positions|
      invariant r == Without(positions[..i], removed)
    {
      WithoutAppend(positions[..i], [positions[i]], removed);
      assert positions[..i + 1] == positions[..i] + [positions[i]];
      if positions[i] != removed {
        r := r + [positions[i]];
      }
    }
    assert positions[..|positions|] == positions;
  }

  /** The loop that lowers by one, in place, every position above the removed one. */
  method LowerAbove(positions: seq<int>, removed: int) returns (r: seq<int>)
    ensures r == Renumber(positions, removed)
  {
    r := positions;
    for i := 0 to |r|
      invariant |r| == |positions|
      invariant forall k :: 0 <= k < i ==> r[k] == if positions[k] > removed then positions[k] - 1 else positions[k]
      invariant forall k :: i <= k < |r| ==> r[k] == positions[k]
    {
      if r[i] > removed {
        r := r[i := r[i] - 1];
      }
    }
  }

  // ----- the portfolio object

  /** The values of a list of investment objects. */
  function Values(invs: seq<Investment>): (r: seq<Holding>)
    reads invs
    ensures |r| == |invs| && forall i {:trigger r[i]} :: 0 <= i < |invs| ==> r[i] == invs[i].Value()
  {
    if invs == [] then [] else Values(invs[..|invs| - 1]) + [invs[|invs| - 1].Value()]
  }

  /** The values of a list with one object taken out. */
  lemma {:induction false} ValuesRemove(invs: seq<Investment>, j: int)
    requires 0 <= j < |invs|
    ensures Values(invs[..j] + invs[j + 1..]) == RemoveAt(Values(invs), j)
  {
    var rest := invs[..j] + invs[j + 1..];
    var l, r := Values(rest), RemoveAt(Values(invs), j);
    assert |l| == |r|;
    forall i | 0 <= i < |l| ensures l[i] == r[i] {
      var i' := if i < j then i else i + 1;
      assert rest[i] == invs[i'];
      assert l[i] == rest[i].Value();
      assert r[i] == Values(invs)[i'];
    }
  }

  /** The values of objects none of which changed are the values they had. */
  twostate lemma {:induction false} ValuesUnchanged(invs: seq<Investment>)
    requires forall i :: 0 <= i < |invs| ==> unchanged(invs[i])
    ensures Values(invs) == old(Values(invs))
  {
    if invs != [] {
      ValuesUnchanged(invs[..|invs| - 1]);
    }
  }

  /** A record the loader commits is what the constructor builds from its fields. */
  lemma Rebuilt(h: Holding)
    requires IsValid(h) && h.bookValue == InitialBookValue(h.kind, h.quantity, h.price)
    ensures NewHolding(h.kind, h.symbol, h.name, h.quantity, h.price) == Ok(h)
  {
    TrimmedUnchanged(h.name);
  }

  // ----- updateIndexOnRemoval as written

  /** updateIndexOnRemoval as written, when the HashMap iterates its keys in
      the order `order`. An emptied bucket is deleted with keywordIndex.remove
      while entrySet() is being iterated, so the iterator's next step throws
      a ConcurrentModificationException unless that key was the last one;
      None stands for that exception. */
  function RemovalAsWritten(m: Index, order: seq<string>, removed: int): Option<Index> {
    if order == [] then Some(m)
    else
      var t := order[0];
      if t !in m then RemovalAsWritten(m, order[1..], removed)
      else
        var b := Adjust(m[t], removed);
        if b != [] then RemovalAsWritten(m[t := b], order[1..], removed)
        else if |order| == 1 then Some(m - {t})
        else None
  }

  /** With the keys iterated once each, the loop as written throws exactly
      when a bucket other than the last one iterated becomes empty. */
  lemma {:induction false} RemovalThrowsIff(m: Index, order: seq<string>, removed: int)
    requires forall k :: 0 <= k < |order| ==> order[k] in m
    requires forall i, k :: 0 <= i < k < |order| ==> order[i] != order[k]
    ensures RemovalAsWritten(m, order, removed) == None <==>
      exists k :: 0 <= k < |order| - 1 && Adjust(m[order[k]], removed) == []
  {
    if order != [] {
      var t := order[0];
      var b := Adjust(m[t], removed);
      if b != [] {
        var m' := m[t := b];
        var rest := order[1..];
        forall k | 0 <= k < |rest|
          ensures rest[k] in m' && m'[rest[k]] == m[order[k + 1]]
        {
          assert rest[k] == order[k + 1] != order[0];
        }
        RemovalThrowsIff(m', rest, removed);
        if exists k :: 0 <= k < |order| - 1 && Adjust(m[order[k]], removed) == [] {
          var k :| 0 <= k < |order| - 1 && Adjust(m[order[k]], removed) == [];
          assert k != 0;
          assert Adjust(m'[rest[k - 1]], removed) == [];
        }
        if exists k :: 0 <= k < |rest| - 1 && Adjust(m'[rest[k]], removed) == [] {
          var k :| 0 <= k < |rest| - 1 && Adjust(m'[rest[k]], removed) == [];
          assert Adjust(m[order[k + 1]], removed) == [];
        }
      } else if |order| > 1 {
        assert Adjust(m[order[0]], removed) == [];
      }
    }
  }

  /** The index part way through the loop of updateIndexOnRemoval: the keys
      still to visit keep their buckets, the others are adjusted, and those
      left empty are gone. */
  function PartlyRemoved(m: Index, todo: set<string>, removed: int): Index {
    map t | t in m && (t in todo || Adjust(m[t], removed) != []) :: if t in todo then m[t] else Adjust(m[t], removed)
  }

  lemma PartlyRemovedStart(m: Index, removed: int)
    ensures PartlyRemoved(m, m.Keys, removed) == m
  {
  }

  /** Visiting one more key adjusts its bucket, or deletes it once empty. */
  lemma PartlyRemovedStep(m: Index, todo: set<string>, t: string, removed: int)
    requires t in todo && todo <= m.Keys
    ensures t in PartlyRemoved(m, todo, removed) && PartlyRemoved(m, todo, removed)[t] == m[t]
    ensures var b := Adjust(m[t], removed);
      var before := PartlyRemoved(m, todo, removed);
      (if b == [] then before - {t} else before[t := b]) == PartlyRemoved(m, todo - {t}, removed)
  {
  }

  lemma PartlyRemovedEnd(m: Index, removed: int)
    ensures PartlyRemoved(m, {}, removed) == RemoveFromIndex(m, removed)
  {
  }

  lemma AdjustSecondOfTwo()
    ensures Adjust([1], 1) == [] && Adjust([0], 1) == [0]
  {
    assert Without([1], 1) == [];
    assert Without([0], 1) == [0];
  }

  /** Two holdings named "Fund" and "Gold"; selling all of the second. The
      HashMap visits "gold" before "fund" (String.hashCode puts "gold" in
      bucket 0 and "fund" in bucket 5 of the default table), so the bucket
      of "gold" empties while "fund" is still to come, and the loop throws. */
  lemma RemovalCounterexample()
    ensures RemovalAsWritten(map["fund" := [0], "gold" := [1]], ["gold", "fund"], 1) == None
  {
    AdjustSecondOfTwo();
  }

  /** The same removal as intended: only "fund" is left, at position 0. */
  lemma RemovalIntended()
    ensures RemoveFromIndex(map["fund" := [0], "gold" := [1]], 1) == map["fund" := [0]]
  {
    AdjustSecondOfTwo();
    var r := RemoveFromIndex(map["fund" := [0], "gold" := [1]], 1);
    assert r.Keys == {"fund"};
  }

  /** Saving one more holding of a list appends that holding's record. */
  lemma SaveLinesPrefix(hs: seq<Holding>, i: nat, show: real -> string)
    requires i < |hs|
    ensures SaveLines(hs[..i + 1], show) == SaveLines(hs[..i], show) + RecordLines(hs[i], show)
  {
    assert hs[..i + 1] == hs[..i] + [hs[i]];
    SaveLinesAppend(hs[..i], hs[i], show);
  }

  /** Regrouping a concatenation of holdings. This is a fact about sequences,
      not about the portfolio: it is a lemma of its own only because proving
      it inline makes the load loop's proof too expensive. */
  lemma AppendAssoc(a: seq<Holding>, b: seq<Holding>, c: seq<Holding>)
    ensures (a + b) + c == a + (b + c)
  {
  }

  class Portfolio {
    var investments: seq<Investment>
    var keywordIndex: Index

    /** The investments' current values, in list order. */
    function Holdings(): seq<Holding>
      reads this, investments
    {
      Values(investments)
    }

    /** Every investment held is valid and the index is exactly the index of
        their names' tokens. */
    ghost predicate Valid()
      reads this, investments
    {
      AllValid(Holdings()) && keywordIndex == IndexOf(Tokens(Holdings()))
    }

    /** An empty portfolio. */
    constructor ()
      ensures Valid() && Holdings() == [] && keywordIndex == map[]
    {
      investments := [];
      keywordIndex := map[];
    }

    /** findInvestment: a copy of the first investment whose symbol equals the
        given one ignoring case, or null. */
    method FindInvestment(symbol: string) returns (copy: Investment?)
      ensures var j := FindPos(Holdings(), symbol);
        && (j < 0 ==> copy == null)
        && (j >= 0 ==> copy != null && fresh(copy) && copy.Value() == Holdings()[j])
    {
      for i := 0 to |investments|
        invariant forall k :: 0 <= k < i ==> !EqualsIgnoreCase(Holdings()[k].symbol, symbol)
      {
        assert Holdings()[i] == investments[i].Value();
        if EqualsIgnoreCase(investments[i].symbol, symbol) {
          copy := new Investment.Copy(investments[i]);
          return;
        }
      }
      return null;
    }

    /** investments.indexOf(target), with equals deciding. */
    method IndexOfInvestment(target: Investment) returns (k: int)
      ensures -1 <= k < |investments|
      ensures k >= 0 ==> investments[k].Equals(target)
      ensures forall i :: 0 <= i < |investments| && (k < 0 || i < k) ==> !investments[i].Equals(target)
      ensures k == IndexOfValue(Holdings(), target.Value())
    {
      for i := 0 to |investments|
        invariant forall l :: 0 <= l < i ==> !investments[l].Equals(target)
        invariant forall l :: 0 <= l < i ==> !SameIdentity(Holdings()[l], target.Value())
      {
        assert Holdings()[i] == investments[i].Value();
        if investments[i].Equals(target) {
          return i;
        }
      }
      return -1;
    }

    /** indexKeywords: the position is appended to the bucket of each token of
        the name, once per occurrence. */
    method IndexKeywords(name: string, position: int)
      modifies this
      ensures keywordIndex == AddWords(old(keywordIndex), SplitWords(name), position)
      ensures investments == old(investments)
    {
      var keywords := SplitWords(name);
      for k := 0 to |keywords|
        invariant keywordIndex == AddWords(old(keywordIndex), keywords[..k], position)
        invariant investments == old(investments)
      {
        assert keywords[..k + 1][..k] == keywords[..k];
        var t := keywords[k];
        keywordIndex := keywordIndex[t := Lookup(keywordIndex, t) + [position]];
      }
      assert keywords[..|keywords|] == keywords;
    }

    /** updateIndexOnRemoval: every bucket loses the removed position, the
        positions above it go down by one, and emptied buckets are deleted. */
    method UpdateIndexOnRemoval(removedPosition: int)
      modifies this
      ensures keywordIndex == RemoveFromIndex(old(keywordIndex), removedPosition)
      ensures investments == old(investments)
    {
      ghost var m0 := keywordIndex;
      var keys := keywordIndex.Keys;
      PartlyRemovedStart(m0, removedPosition);
      while keys != {}
        invariant keys <= m0.Keys
        invariant investments == old(investments)
        invariant keywordIndex == PartlyRemoved(m0, keys, removedPosition)
        decreases |keys|
      {
        var t :| t in keys;
        PartlyRemovedStep(m0, keys, t, removedPosition);
        AdjustKey(t, removedPosition);
        keys := keys - {t};
      }
      PartlyRemovedEnd(m0, removedPosition);
    }

    /** One pass of the loop of updateIndexOnRemoval: the bucket of t loses
        the removed position and its positions above it go down by one; the
        bucket is deleted once it is empty. */
    method AdjustKey(t: string, removedPosition: int)
      requires t in keywordIndex
      modifies this
      ensures var b := Adjust(old(keywordIndex)[t], removedPosition);
        keywordIndex == if b == [] then old(keywordIndex) - {t} else old(keywordIndex)[t := b]
      ensures investments == old(investments)
    {
      var positions := RemoveIfEqual(keywordIndex[t], removedPosition);
      positions := LowerAbove(positions, removedPosition);
      if positions == [] {
        keywordIndex := keywordIndex - {t};
      } else {
        keywordIndex := keywordIndex[t := positions];
      }
    }

    /** getAllPositions. */
    method GetAllPositions() returns (positions: seq<int>)
      ensures |positions| == |investments|
      ensures forall i :: 0 <= i < |positions| ==> positions[i] == i
    {
      positions := [];
      for i := 0 to |investments|
        invariant |positions| == i && forall k :: 0 <= k < i ==> positions[k] == k
      {
        positions := positions + [i];
      }
    }

    /** getTotalGain: the gains of the investments added up in list order. */
    method GetTotalGain() returns (total: real)
      ensures total == TotalGain(Holdings())
    {
      total := 0.0;
      for i := 0 to |investments|
        invariant total == TotalGain(Holdings()[..i])
      {
        assert Holdings()[..i + 1][..i] == Holdings()[..i];
        total := total + Gain(investments[i].Value());
      }
      assert Holdings()[..|investments|] == Holdings();
    }

    /** buyInvestment: the arguments are checked in order; a symbol already
        held is bought on a copy, which leaves the portfolio unchanged; a new
        symbol is appended as a Stock or a MutualFund and its name indexed. */
    method BuyInvestment(ty: string, symbol: string, name: string, quantity: int, price: real) returns (r: Outcome)
      requires Valid()
      modifies this
      ensures Valid()
      ensures var b := Bought(old(Holdings()), ty, symbol, name, quantity, price);
        && (b.Ok? ==> r == Done && Holdings() == b.value)
        && (b.Err? ==> r == Failed(b.error) && Holdings() == old(Holdings()) && keywordIndex == old(keywordIndex))
    {
      var s := ValidateSymbol(symbol);
      if s.Err? {
        return Failed(s.error);
      }
      var n := ValidateName(name);
      if n.Err? {
        return Failed(n.error);
      }
      var q := ValidateQuantity(quantity);
      if q.Err? {
        return Failed(q.error);
      }
      var p := ValidatePrice(price);
      if p.Err? {
        return Failed(p.error);
      }
      BuyEffect(Holdings(), ty, symbol, name, quantity, price);
      BuyChecked(KindNamed(ty), s.value, n.value, q.value, p.value);
      return Done;
    }

    /** The part of buyInvestment after the checks: a symbol already held is
        bought on a copy, which leaves the portfolio unchanged; a new symbol
        is appended and its name indexed. */
    method BuyChecked(kind: Kind, symbol: string, name: string, quantity: int, price: real)
      requires Valid() && NewHolding(kind, symbol, name, quantity, price).Ok?
      modifies this
      ensures Valid()
      ensures FindPos(old(Holdings()), symbol) >= 0 ==> Holdings() == old(Holdings())
      ensures FindPos(old(Holdings()), symbol) < 0 ==>
                Holdings() == old(Holdings()) + [NewHolding(kind, symbol, name, quantity, price).value]
    {
      var existing := FindInvestment(symbol);
      if existing != null {
        var _ := existing.Buy(quantity, price);
        ValuesUnchanged(investments);
        return;
      }
      var added := new Investment(kind, symbol, name, quantity, price);
      Add(added);
    }

    /** investments.add followed by indexKeywords at the new last position. */
    method Add(added: Investment)
      requires Valid() && IsValid(added.Value())
      modifies this
      ensures Valid()
      ensures Holdings() == old(Holdings()) + [added.Value()]
    {
      ghost var hs, m := Holdings(), keywordIndex;
      investments := investments + [added];
      assert Holdings() == hs + [added.Value()];
      IndexKeywords(added.name, |investments| - 1);
      ConsistentAfterAdd(hs, m, added.Value(), Holdings(), keywordIndex);
    }

    /** investments.remove(index) followed by updateIndexOnRemoval(index). */
    method RemoveAtIndex(index: int)
      requires Valid() && 0 <= index < |investments|
      modifies this
      ensures Valid()
      ensures Holdings() == RemoveAt(old(Holdings()), index)
    {
      ghost var hs, m := Holdings(), keywordIndex;
      ValuesRemove(investments, index);
      investments := investments[..index] + investments[index + 1..];
      UpdateIndexOnRemoval(index);
      ConsistentAfterRemove(hs, m, index, Holdings(), keywordIndex);
    }

    /** sellInvestment: the arguments are checked in order; the sale runs on a
        copy of the investment, and only when the copy has nothing left is the
        investment removed (at indexOf of the copy) and the index renumbered. */
    method SellInvestment(symbol: string, quantity: int, price: real) returns (r: Result<real>)
      requires Valid()
      modifies this
      ensures Valid()
      ensures var s := SoldFrom(old(Holdings()), symbol, quantity, price);
        && (s.Ok? ==> r == Ok(s.value.proceeds) && Holdings() == s.value.holdings)
        && (s.Err? ==> r == Err(s.error) && Holdings() == old(Holdings()) && keywordIndex == old(keywordIndex))
    {
      var s := ValidateSymbol(symbol);
      if s.Err? {
        return Err(s.error);
      }
      var q := ValidateQuantity(quantity);
      if q.Err? {
        return Err(q.error);
      }
      var p := ValidatePrice(price);
      if p.Err? {
        return Err(p.error);
      }
      var copy := FindInvestment(s.value);
      if copy == null {
        return Err(NotFound);
      }
      ghost var hs := Holdings();
      ghost var j := FindPos(hs, s.value);
      var proceeds := copy.Sell(q.value, p.value);
      assert Holdings() == hs;
      if proceeds.Err? {
        return Err(proceeds.error);
      }
      if copy.quantity == 0 {
        var index := IndexOfInvestment(copy);
        IdentityKept(hs[j], q.value, p.value);
        IndexOfFound(hs, s.value, copy.Value());
        RemoveAtIndex(index);
      }
      SellEffect(hs, symbol, quantity, price);
      return Ok(proceeds.value);
    }

    /** searchInvestments: the positions searched are the intersection of
        the keyword's buckets, or every position when the keyword is blank or
        the intersection is empty; of those, the investments that pass the
        symbol and price-range filters are returned in that order. */
    method SearchInvestments(symbol: string, nameKeyword: string, priceRange: string) returns (results: seq<Holding>)
      requires Valid()
      ensures results == Search(Holdings(), symbol, nameKeyword, priceRange)
    {
      var searchPositions := SearchPositions(nameKeyword);
      SearchByCandidates(Holdings(), keywordIndex, symbol, nameKeyword, priceRange, searchPositions);
      results := FilterPositions(searchPositions, symbol, priceRange);
    }

    /** The positions searchInvestments looks at: the keyword's matches, or
        every position when there are none. */
    method SearchPositions(nameKeyword: string) returns (searchPositions: seq<int>)
      ensures searchPositions == Candidates(keywordIndex, nameKeyword, |investments|)
    {
      var matched := IntersectKeywords(nameKeyword);
      searchPositions := matched;
      if matched == [] {
        searchPositions := GetAllPositions();
        assert searchPositions == Positions(|investments|);
      }
    }

    /** The keyword loop of searchInvestments: the buckets of the keyword's
        tokens are intersected in order, and the loop stops as soon as
        nothing is left. */
    method IntersectKeywords(nameKeyword: string) returns (matched: seq<int>)
      ensures matched == MatchedPositions(keywordIndex, nameKeyword)
    {
      matched := [];
      if !IsBlank(nameKeyword) {
        var keywords := SplitWords(nameKeyword);
        SplitWordsConcat(nameKeyword);
        var i := 0;
        while i < |keywords|
          invariant 0 <= i <= |keywords|
          invariant i > 0 ==> matched == Matched(keywordIndex, keywords[..i])
        {
          LowerTokens(nameKeyword, i);
          var positions := Lookup(keywordIndex, ToLower(keywords[i]));
          MatchedStep(keywordIndex, keywords, i);
          if i == 0 {
            matched := positions;
          } else {
            matched := RetainAll(matched, positions);
          }
          i := i + 1;
          if matched == [] {
            break;
          }
        }
        if matched == [] {
          MatchedStaysEmpty(keywordIndex, keywords, i);
        } else {
          assert keywords[..i] == keywords;
        }
      }
    }

    /** The result loop of searchInvestments over the positions searched. */
    method FilterPositions(searchPositions: seq<int>, symbol: string, priceRange: string) returns (results: seq<Holding>)
      requires forall k :: 0 <= k < |searchPositions| ==> 0 <= searchPositions[k] < |investments|
      ensures results == Select(Holdings(), searchPositions, symbol, Parse(priceRange))
    {
      results := [];
      for k := 0 to |searchPositions|
        invariant results == Select(Holdings(), searchPositions[..k], symbol, Parse(priceRange))
      {
        var investment := investments[searchPositions[k]];
        assert Holdings()[searchPositions[k]] == investment.Value();
        assert searchPositions[..k + 1][..k] == searchPositions[..k];
        if MatchesSymbol(investment.symbol, symbol) && MatchesPriceRange(investment.price, priceRange) {
          results := results + [investment.Value()];
        }
      }
      assert searchPositions[..|searchPositions|] == searchPositions;
    }

    /** loadFromFile on the lines of the file, one line at a time. What was
        added before a stop stays. */
    method LoadFromLines(lines: seq<string>, read: string -> Option<real>) returns (stop: Stop)
      requires Valid()
      modifies this
      ensures Valid()
      ensures Holdings() == old(Holdings()) + Load(lines, read).records
      ensures stop == Load(lines, read).stop
    {
      ghost var ps := ParseAll(lines);
      ghost var hs0 := Holdings();
      var pending := Fresh;
      assert ps[0..] == ps;
      for i := 0 to |lines|
        invariant Valid()
        invariant var r := Run(pending, ps[i..], read);
          Holdings() + r.records == hs0 + Load(lines, read).records && r.stop == Load(lines, read).stop
      {
        assert ps[i..][1..] == ps[i + 1..];
        assert ps[i..][0] == ParseLine(lines[i]);
        ghost var before := Holdings();
        ghost var s := StepLine(pending, ParseLine(lines[i]), read);
        var next, halt := ApplyLine(pending, ParseLine(lines[i]), read);
        if halt.Some? {
          return halt.value;
        }
        ghost var rest := Run(next, ps[i + 1..], read);
        assert Run(pending, ps[i..], read) == Loaded(s.committed + rest.records, rest.stop);
        AppendAssoc(before, s.committed, rest.records);
        pending := next;
      }
      return Complete;
    }

    /** The body of the loop of loadFromFile for one trimmed line: its key
        picks the pending value it sets; a bookValue line with type, symbol
        and name all read adds a Stock or a MutualFund and indexes its name,
        and the pending values are reset. A number that does not parse stops
        the load quietly; a key line without a value, or an investment the
        constructor rejects, stops it with that exception. */
    method ApplyLine(pending: Pending, line: Parsed, read: string -> Option<real>) returns (next: Pending, halt: Option<Stop>)
      requires Valid()
      modifies this
      ensures Valid()
      ensures var s := StepLine(pending, line, read);
        && (s.Halt? ==> halt == Some(s.stop) && Holdings() == old(Holdings()))
        && (s.Continue? ==> halt == None && next == s.next && Holdings() == old(Holdings()) + s.committed)
    {
      next, halt := pending, None;
      if line.key == NoKey {
        return;
      }
      if line.field.None? {
        return pending, Some(MissingValue);
      }
      var f := line.field.value;
      match line.key {
        case TypeKey =>
          next := pending.(ty := Some(f));
        case SymbolKey =>
          next := pending.(sym := Some(f));
        case NameKey =>
          next := pending.(nm := Some(f));
        case QuantityKey =>
          var q := ParseInt(f);
          if q.None? {
            return pending, Some(BadNumber);
          }
          next := pending.(qty := q.value);
        case PriceKey =>
          var x := read(f);
          if x.None? {
            return pending, Some(BadNumber);
          }
          next := pending.(px := x.value);
        case BookValueKey =>
          if read(f).None? {
            return pending, Some(BadNumber);
          }
          if pending.ty.Some? && pending.sym.Some? && pending.nm.Some? {
            var c := Investment.Create(KindNamed(pending.ty.value), pending.sym.value, pending.nm.value,
                                       pending.qty, pending.px);
            if c.Err? {
              return pending, Some(Rejected(c.error));
            }
            Add(c.value);
          }
          next := Fresh;
      }
    }

    /** saveToFile on the lines of the file: the seven lines of each
        investment, in list order. */
    method SaveToLines(show: real -> string) returns (lines: seq<string>)
      ensures lines == SaveLines(Holdings(), show)
    {
      ghost var hs := Holdings();
      lines := [];
      for i := 0 to |investments|
        invariant lines == SaveLines(hs[..i], show)
      {
        assert hs[i] == investments[i].Value();
        SaveLinesPrefix(hs, i, show);
        var record := WriteRecord(investments[i], show);
        lines := lines + record;
      }
      assert hs[..|investments|] == hs;
    }

    /** The seven writes of one investment in saveToFile. */
    static method WriteRecord(investment: Investment, show: real -> string) returns (record: seq<string>)
      ensures record == RecordLines(investment.Value(), show)
    {
      record := [Line("type", TypeName(investment.kind)),
                 Line("symbol", investment.symbol),
                 Line("name", investment.name),
                 Line("quantity", ShowInt(investment.quantity)),
                 Line("price", show(investment.price)),
                 Line("bookValue", show(investment.bookValue)),
                 ""];
    }
  }
}
