/** The SQLite deployment: the three tables live in one database, and
    `execute_trade` runs inside one transaction that is committed at the end
    and rolled back on an exception. */
module LocalApp {
  import opened Trading
  import opened Ledger
  import opened Engine
  import opened Valuation

  class SqliteStore {
    var users: map<UserId, real>        // the balance column of `users`
    var portfolio: map<Key, Position>   // `portfolio`, unique on (user_id, symbol)
    var trades: seq<Trade>              // `trades`, in insertion order

    function State(): Db
      reads this
    {
      Db(users, portfolio, trades)
    }

    ghost predicate Valid()
      reads this
    {
      Inv(State())
    }

    constructor (db: Db)
      ensures State() == db
    {
      users, portfolio, trades := db.balances, db.portfolio, db.trades;
    }

    /** `execute_trade`. The writes go to the open transaction (`txUsers`, `txPortfolio`,
        `txTrades`); every early return happens before the commit, so it changes nothing. */
    method ExecuteTrade(user: UserId, symbol: Symbol, action: string, quantity: int,
                        prices: map<Symbol, real>, now: int) returns (outcome: Outcome)
      requires quantity > 0
      modifies this
      ensures var step := Execute(old(State()), Order(user, symbol, action, quantity), prices, now);
              State() == step.db && outcome == step.outcome
      ensures old(Valid()) && PricesPositive(prices) ==> Valid()
    {
      ghost var before := State();
      ghost var order := Order(user, symbol, action, quantity);
      if symbol !in prices {
        return InvalidSymbol;
      }
      var currentPrice := prices[symbol];
      var totalCost := Amount(quantity, currentPrice);
      assert LedgerRow(order, currentPrice, now) == Trade(user, symbol, action, quantity, currentPrice, totalCost, now);

      var txUsers, txPortfolio, txTrades := users, portfolio, trades;
      if user !in txUsers {
        // fetchone() finds no row; indexing it raises and the transaction is rolled back
        return ExecutionFailed;
      }
      var balance := txUsers[user];
      var key := (user, symbol);
      if IsBuy(action) {
        if balance < totalCost {
          return InsufficientBalance;
        }
        txUsers := txUsers[user := balance - totalCost];
        if key in txPortfolio {
          var existing := txPortfolio[key];
          var newQuantity := existing.quantity + quantity;
          if newQuantity == 0 {
            // ZeroDivisionError: rolled back
            return ExecutionFailed;
          }
          var newAvgPrice := (existing.quantity as real * existing.avgPrice + quantity as real * currentPrice)
                             / newQuantity as real;
          txPortfolio := txPortfolio[key := Position(newQuantity, newAvgPrice)];
          assert Blend(existing, quantity, currentPrice) == Position(newQuantity, newAvgPrice);
        } else {
          txPortfolio := txPortfolio[key := Position(quantity, currentPrice)];
        }
        BuyCommits(before, order, prices, now, currentPrice, totalCost, txUsers, txPortfolio);
      } else {
        if key !in txPortfolio || txPortfolio[key].quantity < quantity {
          return InsufficientShares;
        }
        txUsers := txUsers[user := balance + totalCost];
        var existing := txPortfolio[key];
        var newQuantity := existing.quantity - quantity;
        if newQuantity == 0 {
          txPortfolio := txPortfolio - {key};
        } else {
          txPortfolio := txPortfolio[key := Position(newQuantity, existing.avgPrice)];
        }
        SellCommits(before, order, prices, now, currentPrice, totalCost, txUsers, txPortfolio);
      }
      var trade := Trade(user, symbol, action, quantity, currentPrice, totalCost, now);
      txTrades := txTrades + [trade];
      // commit
      users, portfolio, trades := txUsers, txPortfolio, txTrades;
      outcome := Executed(trade);
      if Inv(before) && PricesPositive(prices) {
        StepPreservesInv(before, order, prices, now);
      }
    }

    /** `get_user_portfolio`: the query keeps the user's rows with quantity > 0,
        and the loop prices each one and sums the values. */
    method GetUserPortfolio(user: UserId, prices: map<Symbol, real>) returns (lines: seq<Holding>, value: real)
      ensures IsValuation(portfolio, user, prices, lines, value)
    {
      var table := portfolio;
      var rows := HeldSymbols(table, user);  // SELECT ... WHERE user_id = ? AND quantity > 0
      value := 0.0;
      lines := [];
      ghost var done: set<Symbol> := {};
      while rows != {}
        invariant rows + done == HeldSymbols(table, user) && rows !! done
        invariant PartialValuation(table, user, prices, lines, done)
        invariant value == TotalValue(lines)
        decreases rows
      {
        var symbol :| symbol in rows;
        var line := PriceLine(table, user, prices, symbol);
        value := value + line.totalValue;
        ExtendPartial(table, user, prices, lines, done, symbol, line);
        TotalValueAppend(lines, line);
        lines := lines + [line];
        rows, done := rows - {symbol}, done + {symbol};
      }
      PartialComplete(table, user, prices, lines, done, value);
    }

    /** The ledger figures of `admin_dashboard`: `COUNT(*)` of the trades and
        `SUM(total)` of the buy trades, 0 when there is none. */
    method AdminDashboard() returns (totalTrades: nat, totalVolume: real)
      ensures totalTrades == |trades|
      ensures totalVolume == BuyVolume(trades)
      // a store that keeps the invariant never reports a negative volume
      ensures Valid() ==> totalVolume >= 0.0
    {
      totalTrades := |trades|;
      totalVolume := BuyVolume(trades);
      if Valid() {
        DashboardVolumeNonNegative(State());
      }
    }

    /** `delete_user`: delete the user's positions, then their trades, then the user. */
    method DeleteUser(u: UserId)
      modifies this
      ensures State() == RemoveUser(old(State()), u)
      ensures old(Valid()) ==> Valid()
    {
      ghost var before := State();
      portfolio := map k | k in portfolio && k.0 != u :: portfolio[k];
      trades := WithoutUser(trades, u);
      users := users - {u};
      if Inv(before) {
        RemoveUserPreservesInv(before, u);
      }
    }
  }
}
