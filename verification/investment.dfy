/** One holding of the portfolio: a stock or a mutual fund with its symbol,
    name, quantity, current price and book value (cost basis), the input
    checks of its constructor, and the fee arithmetic of buying and selling.
    Prices, book values and proceeds are exact reals. */
module Investments {
  import opened Text

  /** The runtime class of an investment. */
  datatype Kind = Stock | MutualFund

  /** Stock.COMMISSION, charged on every buy and every sell of a stock. */
  const COMMISSION: real := 9.99
  /** MutualFund.REDEMPTION_FEE, charged on every sell of a mutual fund. */
  const REDEMPTION_FEE: real := 45.0

  /** The class chosen for a type name: a Stock when it equals "stock"
      ignoring case, a MutualFund for every other name. */
  function KindNamed(ty: string): (k: Kind)
    ensures k == Stock <==> EqualsIgnoreCase(ty, "stock")
  {
    if EqualsIgnoreCase(ty, "stock") then Stock else MutualFund
  }

  /** The exceptions the engine throws, by cause. */
  datatype Error =
    | InvalidSymbol
    | InvalidName
    | InvalidQuantity
    | InvalidPrice
    | InsufficientQuantity
    | NotFound

  datatype Result<T> = Ok(value: T) | Err(error: Error)

  /** The outcome of an operation that returns nothing when it succeeds. */
  datatype Outcome = Done | Failed(error: Error)

  /** The five fields of an investment together with its class, as one value. */
  datatype Holding = Holding(kind: Kind, symbol: string, name: string, quantity: int, price: real, bookValue: real)

  /** What a sell hands back: the holding afterwards and the proceeds. */
  datatype Sale = Sale(after: Holding, proceeds: real)

  predicate IsSymbolChar(c: char) {
    'A' <= c <= 'Z' || '0' <= c <= '9'
  }

  /** The pattern ^[A-Z0-9]+$. */
  predicate IsValidSymbol(s: string) {
    |s| > 0 && forall k :: 0 <= k < |s| ==> IsSymbolChar(s[k])
  }

  /** A name as the constructor stores it: not empty and already trimmed. */
  predicate IsTrimmedName(s: string) {
    s != [] && !IsTrimmable(s[0]) && !IsTrimmable(s[|s| - 1])
  }

  /** The invariant of every investment held in a portfolio. */
  predicate IsValid(h: Holding) {
    IsValidSymbol(h.symbol) && IsTrimmedName(h.name) && h.quantity > 0 && h.price > 0.0
  }

  /** validateSymbol: a symbol must match ^[A-Z0-9]+$; the upper-cased symbol is returned. */
  function ValidateSymbol(s: string): (r: Result<string>)
    ensures r.Ok? <==> IsValidSymbol(s)
    ensures r.Ok? ==> r.value == s
    ensures r.Err? ==> r.error == InvalidSymbol
  {
    if IsValidSymbol(s) then
      assert ToUpper(s) == s;
      Ok(ToUpper(s))
    else Err(InvalidSymbol)
  }

  /** validateName: a name must hold a character above U+0020; the trimmed name is returned. */
  function ValidateName(s: string): (r: Result<string>)
    ensures r.Ok? <==> !IsBlank(s)
    ensures r.Ok? ==> IsTrimmedName(r.value) && r.value == Trim(s)
    ensures r.Err? ==> r.error == InvalidName
  {
    TrimFacts(s);
    if IsBlank(s) then Err(InvalidName) else Ok(Trim(s))
  }

  /** validateQuantity. */
  function ValidateQuantity(q: int): (r: Result<int>)
    ensures r.Ok? <==> q > 0
    ensures r.Ok? ==> r.value == q
    ensures r.Err? ==> r.error == InvalidQuantity
  {
    if q <= 0 then Err(InvalidQuantity) else Ok(q)
  }

  /** validatePrice. */
  function ValidatePrice(p: real): (r: Result<real>)
    ensures r.Ok? <==> p > 0.0
    ensures r.Ok? ==> r.value == p
    ensures r.Err? ==> r.error == InvalidPrice
  {
    if p <= 0.0 then Err(InvalidPrice) else Ok(p)
  }

  /** calculateInitialBookValue: quantity times price, plus the commission
      in the override of a stock. */
  function InitialBookValue(kind: Kind, quantity: int, price: real): real {
    match kind
    case Stock => quantity as real * price + COMMISSION
    case MutualFund => quantity as real * price
  }

  /** The fee a buy adds to the book value. */
  function BuyFee(kind: Kind): real {
    if kind == Stock then COMMISSION else 0.0
  }

  /** The fee a sell takes off the proceeds. */
  function SellFee(kind: Kind): real {
    if kind == Stock then COMMISSION else REDEMPTION_FEE
  }

  /** calculateGain: market value minus book value. */
  function Gain(h: Holding): real {
    h.quantity as real * h.price - h.bookValue
  }

  /** Book value per unit held. */
  function AverageCost(h: Holding): real
    requires h.quantity > 0
  {
    h.bookValue / h.quantity as real
  }

  /** What the constructor builds, or the first check that throws: symbol,
      then name, then quantity, then price. */
  function NewHolding(kind: Kind, symbol: string, name: string, quantity: int, price: real): (r: Result<Holding>)
    ensures r.Ok? <==> IsValidSymbol(symbol) && !IsBlank(name) && quantity > 0 && price > 0.0
    ensures r.Err? ==> r.error == (if !IsValidSymbol(symbol) then InvalidSymbol
                                   else if IsBlank(name) then InvalidName
                                   else if quantity <= 0 then InvalidQuantity
                                   else InvalidPrice)
    ensures r.Ok? ==> IsValid(r.value) && r.value.kind == kind && r.value.symbol == symbol
                      && r.value.name == Trim(name) && r.value.quantity == quantity && r.value.price == price
                      && r.value.bookValue == InitialBookValue(kind, quantity, price)
    ensures r.Ok? ==> Gain(r.value) == -BuyFee(kind)
  {
    var s := ValidateSymbol(symbol);
    if s.Err? then Err(s.error) else
    var n := ValidateName(name);
    if n.Err? then Err(n.error) else
    var q := ValidateQuantity(quantity);
    if q.Err? then Err(q.error) else
    var p := ValidatePrice(price);
    if p.Err? then Err(p.error) else
    Ok(Holding(kind, s.value, n.value, q.value, p.value, InitialBookValue(kind, q.value, p.value)))
  }

  /** The holding after buy(additional, price), and whether it threw. The
      quantity is added before the price is checked, so a bad price leaves
      the quantity raised and the book value as it was. */
  function AfterBuy(h: Holding, additional: int, price: real): (Holding, Outcome) {
    if additional <= 0 then (h, Failed(InvalidQuantity))
    else if price <= 0.0 then (h.(quantity := h.quantity + additional), Failed(InvalidPrice))
    else (h.(quantity := h.quantity + additional,
             bookValue := h.bookValue + additional as real * price + BuyFee(h.kind)), Done)
  }

  /** The holding and proceeds after sell(quantity, price), or what it threw. */
  function AfterSell(h: Holding, quantity: int, price: real): (r: Result<Sale>)
    requires h.quantity > 0
    ensures r.Err? <==> quantity > h.quantity || price <= 0.0
    ensures r.Err? ==> r.error == (if quantity > h.quantity then InsufficientQuantity else InvalidPrice)
  {
    if quantity > h.quantity then Err(InsufficientQuantity)
    else if price <= 0.0 then Err(InvalidPrice)
    else
      var perUnit := h.bookValue / h.quantity as real;
      Ok(Sale(h.(bookValue := h.bookValue - perUnit * quantity as real, quantity := h.quantity - quantity),
              quantity as real * price - SellFee(h.kind)))
  }

  /** The holding after updatePrice(newPrice), or what it threw. */
  function AfterUpdatePrice(h: Holding, newPrice: real): (r: Result<Holding>)
    ensures r.Ok? <==> newPrice > 0.0
    ensures r.Ok? ==> r.value.price == newPrice && r.value.(price := h.price) == h
  {
    if newPrice <= 0.0 then Err(InvalidPrice) else Ok(h.(price := newPrice))
  }

  /** equals on the values of two investments: same class, symbol and name. */
  predicate SameIdentity(a: Holding, b: Holding) {
    a.kind == b.kind && a.symbol == b.symbol && a.name == b.name
  }

  /** buy, sell and updatePrice never change what equals compares: the
      class, symbol and name stay those of the holding, whether the
      operation succeeds or throws. */
  lemma IdentityKept(h: Holding, quantity: int, price: real)
    ensures SameIdentity(AfterBuy(h, quantity, price).0, h)
    ensures h.quantity > 0 && AfterSell(h, quantity, price).Ok? ==>
      SameIdentity(AfterSell(h, quantity, price).value.after, h)
    ensures AfterUpdatePrice(h, price).Ok? ==> SameIdentity(AfterUpdatePrice(h, price).value, h)
  {
  }

  /** A buy with valid arguments adds the quantity and its cost plus the buy fee,
      and moves the gain by the difference between market and purchase price
      less that fee; nothing else changes. A buy with a bad quantity changes
      nothing. */
  lemma BuyArithmetic(h: Holding, additional: int, price: real)
    ensures additional <= 0 ==> AfterBuy(h, additional, price) == (h, Failed(InvalidQuantity))
    ensures additional > 0 && price <= 0.0 ==>
      AfterBuy(h, additional, price) == (h.(quantity := h.quantity + additional), Failed(InvalidPrice))
    ensures additional > 0 && price > 0.0 ==>
      var (h', o) := AfterBuy(h, additional, price);
      && o == Done && SameIdentity(h', h) && h'.price == h.price
      && h'.quantity == h.quantity + additional
      && h'.bookValue == h.bookValue + additional as real * price + BuyFee(h.kind)
      && Gain(h') == Gain(h) + additional as real * (h.price - price) - BuyFee(h.kind)
  {
    if additional > 0 && price > 0.0 {
      var h' := AfterBuy(h, additional, price).0;
      calc {
        Gain(h');
        (h.quantity + additional) as real * h.price - (h.bookValue + additional as real * price + BuyFee(h.kind));
        { assert (h.quantity + additional) as real * h.price == h.quantity as real * h.price + additional as real * h.price; }
        Gain(h) + additional as real * (h.price - price) - BuyFee(h.kind);
      }
    }
  }

  /** A partial sell keeps the average cost per unit; selling everything
      leaves no quantity and no book value; the proceeds are the sale value
      less the variant's fee; symbol, name, class and price do not change. */
  lemma {:induction false} SellArithmetic(h: Holding, quantity: int, price: real)
    requires h.quantity > 0
    ensures AfterSell(h, quantity, price).Ok? ==>
      var s := AfterSell(h, quantity, price).value;
      && SameIdentity(s.after, h) && s.after.price == h.price
      && s.after.quantity == h.quantity - quantity
      && s.proceeds == quantity as real * price - SellFee(h.kind)
      && (s.after.quantity > 0 ==> AverageCost(s.after) == AverageCost(h))
      && (s.after.quantity == 0 ==> s.after.bookValue == 0.0)
  {
    var r := AfterSell(h, quantity, price);
    if r.Ok? {
      var a := r.value.after;
      var Q := h.quantity as real;
      var q := quantity as real;
      var B := h.bookValue;
      assert a.bookValue == B - (B / Q) * q;
      if a.quantity > 0 {
        calc {
          a.bookValue;
          B - (B / Q) * q;
          (B / Q) * Q - (B / Q) * q;
          (B / Q) * (Q - q);
        }
        assert a.quantity as real == Q - q;
      } else {
        assert q == Q;
        assert (B / Q) * Q == B;
      }
    }
  }

  /** Selling from a holding bought in one purchase: a stock loses the
      commission twice, a fund the redemption fee once. */
  lemma {:induction false} RoundTripCost(kind: Kind, symbol: string, name: string, quantity: int, price: real)
    requires NewHolding(kind, symbol, name, quantity, price).Ok?
    ensures var h := NewHolding(kind, symbol, name, quantity, price).value;
      && AfterSell(h, quantity, price).Ok?
      && AfterSell(h, quantity, price).value.proceeds - h.bookValue
         == (if kind == Stock then -2.0 * COMMISSION else -REDEMPTION_FEE)
  {
    var h := NewHolding(kind, symbol, name, quantity, price).value;
    assert h.bookValue == InitialBookValue(kind, quantity, price);
  }

  /** An investment object: a stock or a mutual fund whose fields change in place. */
  class Investment {
    const kind: Kind
    var symbol: string
    var name: string
    var quantity: int
    var price: real
    var bookValue: real

    /** The current fields as one value. */
    function Value(): Holding
      reads this
    {
      Holding(kind, symbol, name, quantity, price, bookValue)
    }

    /** The constructor of Stock or MutualFund on arguments its checks accept;
        Create below is the version that reports what the checks reject. */
    constructor (kind: Kind, symbol: string, name: string, quantity: int, price: real)
      requires NewHolding(kind, symbol, name, quantity, price).Ok?
      ensures Value() == NewHolding(kind, symbol, name, quantity, price).value
    {
      this.kind := kind;
      this.symbol := ValidateSymbol(symbol).value;
      this.name := ValidateName(name).value;
      this.quantity := ValidateQuantity(quantity).value;
      this.price := ValidatePrice(price).value;
      this.bookValue := InitialBookValue(kind, quantity, price);
    }

    /** The copy constructor: all five fields and the class are copied. */
    constructor Copy(other: Investment)
      ensures Value() == other.Value()
    {
      kind := other.kind;
      symbol := other.symbol;
      name := other.name;
      quantity := other.quantity;
      price := other.price;
      bookValue := other.bookValue;
    }

    /** new Stock(...) or new MutualFund(...): a fresh investment, or the
        exception of the first check that fails. */
    static method Create(kind: Kind, symbol: string, name: string, quantity: int, price: real)
      returns (r: Result<Investment>)
      ensures r.Ok? <==> NewHolding(kind, symbol, name, quantity, price).Ok?
      ensures r.Err? ==> r.error == NewHolding(kind, symbol, name, quantity, price).error
      ensures r.Ok? ==> fresh(r.value) && r.value.Value() == NewHolding(kind, symbol, name, quantity, price).value
    {
      var h := NewHolding(kind, symbol, name, quantity, price);
      if h.Err? {
        return Err(h.error);
      }
      var inv := new Investment(kind, symbol, name, quantity, price);
      return Ok(inv);
    }

    /** updatePrice: the price becomes newPrice when it is positive; otherwise
        it throws and nothing changes. No other field changes. */
    method UpdatePrice(newPrice: real) returns (r: Outcome)
      modifies this
      ensures var u := AfterUpdatePrice(old(Value()), newPrice);
        && (u.Ok? ==> r == Done && Value() == u.value)
        && (u.Err? ==> r == Failed(u.error) && Value() == old(Value()))
    {
      var p := ValidatePrice(newPrice);
      if p.Err? {
        return Failed(p.error);
      }
      price := p.value;
      return Done;
    }

    /** Stock.buy and MutualFund.buy. */
    method Buy(additional: int, price: real) returns (r: Outcome)
      modifies this
      ensures (Value(), r) == AfterBuy(old(Value()), additional, price)
    {
      var q := ValidateQuantity(additional);
      if q.Err? {
        return Failed(q.error);
      }
      quantity := quantity + q.value;
      var p := ValidatePrice(price);
      if p.Err? {
        return Failed(p.error);
      }
      if kind == Stock {
        bookValue := bookValue + additional as real * p.value + COMMISSION;
      } else {
        bookValue := bookValue + additional as real * p.value;
      }
      return Done;
    }

    /** Stock.sell and MutualFund.sell: the book value loses the average cost
        of the units sold, computed before the quantity goes down. */
    method Sell(toSell: int, price: real) returns (r: Result<real>)
      requires quantity > 0
      modifies this
      ensures var s := AfterSell(old(Value()), toSell, price);
        && (s.Ok? ==> r == Ok(s.value.proceeds) && Value() == s.value.after)
        && (s.Err? ==> r == Err(s.error) && Value() == old(Value()))
    {
      if toSell > quantity {
        return Err(InsufficientQuantity);
      }
      var p := ValidatePrice(price);
      if p.Err? {
        return Err(p.error);
      }
      var proceeds := toSell as real * p.value - SellFee(kind);
      var perUnit := bookValue / quantity as real;
      bookValue := bookValue - perUnit * toSell as real;
      quantity := quantity - toSell;
      return Ok(proceeds);
    }

    /** equals: the same object, or one of the same class with the same symbol and name. */
    predicate Equals(other: Investment?)
      reads this, other
    {
      this == other || (other != null && kind == other.kind && symbol == other.symbol && name == other.name)
    }
  }

}
