/** Portfolio valuation (`get_user_portfolio`): a user's rows with a positive
    quantity, each priced at the current price, and their summed value. */
module Valuation {
  import opened Trading

  /** One line of the portfolio page. */
  datatype Holding = Holding(
    symbol: Symbol,
    quantity: int,
    avgPrice: real,
    currentPrice: real,
    totalValue: real,
    gainLoss: real)

  /** The current price of a symbol, 0 for a symbol the price table does not list. */
  function CurrentPrice(prices: map<Symbol, real>, s: Symbol): (p: real)
    ensures s in prices ==> p == prices[s]
    ensures s !in prices ==> p == 0.0
  {
    if s in prices then prices[s] else 0.0
  }

  /** The symbols of the user's rows whose quantity is positive. */
  function HeldSymbols(portfolio: map<Key, Position>, u: UserId): (r: set<Symbol>)
    ensures forall s :: s in r ==> (u, s) in portfolio && portfolio[(u, s)].quantity > 0
    ensures forall s :: (u, s) in portfolio && portfolio[(u, s)].quantity > 0 ==> s in r
  {
    set k | k in portfolio && k.0 == u && portfolio[k].quantity > 0 :: k.1
  }

  /** The symbols of all the user's rows, whatever their quantity. */
  function UserSymbols(portfolio: map<Key, Position>, u: UserId): (r: set<Symbol>)
    ensures forall s :: s in r <==> (u, s) in portfolio
    ensures HeldSymbols(portfolio, u) <= r
  {
    set k | k in portfolio && k.0 == u :: k.1
  }

  /** The line the page shows for the user's row of `s`. */
  function PriceLine(portfolio: map<Key, Position>, u: UserId, prices: map<Symbol, real>, s: Symbol): (h: Holding)
    requires (u, s) in portfolio
    ensures h.symbol == s
    ensures portfolio[(u, s)].quantity > 0 ==> LineFor(portfolio, u, prices, h)
  {
    var row := portfolio[(u, s)];
    var currentPrice := CurrentPrice(prices, s);
    Holding(s, row.quantity, row.avgPrice, currentPrice,
            row.quantity as real * currentPrice, (currentPrice - row.avgPrice) * row.quantity as real)
  }

  /** `h` is the line for one of the user's positive rows, priced as the page prices it. */
  ghost predicate LineFor(portfolio: map<Key, Position>, u: UserId, prices: map<Symbol, real>, h: Holding) {
    var key := (u, h.symbol);
    && key in portfolio
    && portfolio[key].quantity > 0
    && h.quantity == portfolio[key].quantity
    && h.avgPrice == portfolio[key].avgPrice
    && h.currentPrice == CurrentPrice(prices, h.symbol)
    && h.totalValue == h.quantity as real * h.currentPrice
    && h.gainLoss == (h.currentPrice - h.avgPrice) * h.quantity as real
  }

  /** `lines` lists each positive row of the user exactly once, in some order,
      and `value` is the sum of their values. */
  ghost predicate IsValuation(portfolio: map<Key, Position>, u: UserId, prices: map<Symbol, real>,
                              lines: seq<Holding>, value: real) {
    && (forall i :: 0 <= i < |lines| ==> LineFor(portfolio, u, prices, lines[i]))
    && (forall i, j :: 0 <= i < j < |lines| ==> lines[i].symbol != lines[j].symbol)
    && (forall s :: s in HeldSymbols(portfolio, u) ==> exists i :: 0 <= i < |lines| && lines[i].symbol == s)
    && value == TotalValue(lines)
  }

  /** Sum of quantity * current price. */
  function TotalValue(lines: seq<Holding>): real
    decreases |lines|
  {
    if lines == [] then 0.0 else TotalValue(lines[..|lines| - 1]) + lines[|lines| - 1].totalValue
  }

  /** Sum of the unrealised gains and losses. */
  function TotalGain(lines: seq<Holding>): real
    decreases |lines|
  {
    if lines == [] then 0.0 else TotalGain(lines[..|lines| - 1]) + lines[|lines| - 1].gainLoss
  }

  /** Sum of quantity * average price: what the held shares cost. */
  function CostBasis(lines: seq<Holding>): real
    decreases |lines|
  {
    if lines == [] then 0.0
    else
      var h := lines[|lines| - 1];
      CostBasis(lines[..|lines| - 1]) + h.quantity as real * h.avgPrice
  }

  /** The reported gains and losses add up to the portfolio value less what the shares cost. */
  lemma {:induction false} GainIsValueLessCost(portfolio: map<Key, Position>, u: UserId,
                                               prices: map<Symbol, real>, lines: seq<Holding>)
    requires forall i :: 0 <= i < |lines| ==> LineFor(portfolio, u, prices, lines[i])
    ensures TotalGain(lines) == TotalValue(lines) - CostBasis(lines)
    decreases |lines|
  {
    if lines != [] {
      var init, h := lines[..|lines| - 1], lines[|lines| - 1];
      assert forall i :: 0 <= i < |init| ==> init[i] == lines[i];
      GainIsValueLessCost(portfolio, u, prices, init);
      assert LineFor(portfolio, u, prices, h);
      assert h.gainLoss == h.currentPrice * h.quantity as real - h.avgPrice * h.quantity as real;
    }
  }

  /** With a positive price table the portfolio value is never negative. */
  lemma {:induction false} ValueNonNegative(portfolio: map<Key, Position>, u: UserId,
                                            prices: map<Symbol, real>, lines: seq<Holding>)
    requires PricesPositive(prices)
    requires forall i :: 0 <= i < |lines| ==> LineFor(portfolio, u, prices, lines[i])
    ensures TotalValue(lines) >= 0.0
    decreases |lines|
  {
    if lines != [] {
      var init, h := lines[..|lines| - 1], lines[|lines| - 1];
      assert forall i :: 0 <= i < |init| ==> init[i] == lines[i];
      ValueNonNegative(portfolio, u, prices, init);
      assert LineFor(portfolio, u, prices, h);
      assert h.currentPrice >= 0.0;
      assert h.quantity as real * h.currentPrice >= 0.0;
    }
  }

  /** Appending a line adds its value. */
  lemma TotalValueAppend(lines: seq<Holding>, h: Holding)
    ensures TotalValue(lines + [h]) == TotalValue(lines) + h.totalValue
  {
    assert (lines + [h])[..|lines + [h]| - 1] == lines;
  }

  /** Part way through the loop: the lines so far are valid, distinct, drawn from `done`,
      and cover every positive row in `done`. */
  ghost predicate PartialValuation(portfolio: map<Key, Position>, u: UserId, prices: map<Symbol, real>,
                                   lines: seq<Holding>, done: set<Symbol>) {
    && (forall i :: 0 <= i < |lines| ==> LineFor(portfolio, u, prices, lines[i]) && lines[i].symbol in done)
    && (forall i, j :: 0 <= i < j < |lines| ==> lines[i].symbol != lines[j].symbol)
    && (forall s :: s in done && s in HeldSymbols(portfolio, u) ==> exists i :: 0 <= i < |lines| && lines[i].symbol == s)
  }

  /** One loop step over a symbol not yet visited: a positive row gets its line, any other row none. */
  lemma ExtendPartial(portfolio: map<Key, Position>, u: UserId, prices: map<Symbol, real>,
                      lines: seq<Holding>, done: set<Symbol>, s: Symbol, h: Holding)
    requires PartialValuation(portfolio, u, prices, lines, done) && s !in done
    requires (u, s) in portfolio
    requires portfolio[(u, s)].quantity > 0 ==> LineFor(portfolio, u, prices, h) && h.symbol == s
    ensures portfolio[(u, s)].quantity > 0 ==> PartialValuation(portfolio, u, prices, lines + [h], done + {s})
    ensures portfolio[(u, s)].quantity <= 0 ==> PartialValuation(portfolio, u, prices, lines, done + {s})
  {
    if portfolio[(u, s)].quantity > 0 {
      var ext := lines + [h];
      forall x | x in done + {s} && x in HeldSymbols(portfolio, u)
        ensures exists i :: 0 <= i < |ext| && ext[i].symbol == x
      {
        if x == s {
          assert ext[|lines|].symbol == x;
        } else {
          var i :| 0 <= i < |lines| && lines[i].symbol == x;
          assert ext[i].symbol == x;
        }
      }
    } else {
      assert s !in HeldSymbols(portfolio, u);
    }
  }

  /** Once every symbol has been visited, the lines and the summed value are the valuation. */
  lemma PartialComplete(portfolio: map<Key, Position>, u: UserId, prices: map<Symbol, real>,
                        lines: seq<Holding>, done: set<Symbol>, value: real)
    requires PartialValuation(portfolio, u, prices, lines, done)
    requires HeldSymbols(portfolio, u) <= done && value == TotalValue(lines)
    ensures IsValuation(portfolio, u, prices, lines, value)
  {
  }
}
