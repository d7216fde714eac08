/** The DynamoDB deployment: three tables and no transaction. `execute_trade`
    writes each table as soon as its check has passed: the user's balance first,
    then the portfolio item, then the trade item. Only its success paths are
    modelled; a failure between two writes is not. */
module AwsApp {
  import opened Trading
  import opened Ledger
  import opened Engine
  import opened Valuation

  /** `trades.sort(key=timestamp, reverse=True)`, in place: most recent first. Each row
      in turn is moved left past the rows older than it. */
  method SortByTimestampDesc(a: array<Trade>)
    modifies a
    ensures SortedByTimestampDesc(a[..])
    ensures multiset(a[..]) == multiset(old(a[..]))
  {
    var i := 0;
    while i < a.Length
      invariant 0 <= i <= a.Length
      invariant SortedByTimestampDesc(a[..i])
      invariant multiset(a[..]) == multiset(old(a[..]))
    {
      SiftLeft(a, i);
      i := i + 1;
    }
    assert a[..i] == a[..];
  }

  /** Moves `a[i]` left past every row older than it, onto the end of the sorted prefix `a[..i]`. */
  method SiftLeft(a: array<Trade>, i: int)
    requires 0 <= i < a.Length && SortedByTimestampDesc(a[..i])
    modifies a
    ensures SortedByTimestampDesc(a[..i + 1])
    ensures multiset(a[..]) == multiset(old(a[..]))
    // the rows after `i` have not moved
    ensures a[i + 1..] == old(a[i + 1..])
  {
    var j := i;
    SiftStart(a[..], i);
    while j > 0 && a[j - 1].timestamp < a[j].timestamp
      invariant 0 <= j <= i
      invariant Sifting(a[..], j, i)
      invariant multiset(a[..]) == multiset(old(a[..]))
      invariant a[i + 1..] == old(a[i + 1..])
      decreases j
    {
      ghost var s := a[..];
      SiftStep(s, j, i);
      a[j - 1], a[j] := a[j], a[j - 1];
      assert a[..] == Swapped(s, j);
      j := j - 1;
    }
    SiftDone(a[..], j, i);
  }

  /** `s[..i + 1]` part way through moving a row left: the row being moved sits at `j`. */
  ghost predicate Sifting(s: seq<Trade>, j: int, i: int)
    requires 0 <= j <= i < |s|
  {
    // with the moving row left out, the prefix up to i is sorted
    && (forall p, q :: 0 <= p < q <= i && p != j && q != j ==> s[p].timestamp >= s[q].timestamp)
    // the moving row is more recent than every row it has passed
    && (forall q :: j < q <= i ==> s[j].timestamp > s[q].timestamp)
  }

  /** `s` with the rows at `j - 1` and `j` exchanged. */
  function Swapped(s: seq<Trade>, j: int): (r: seq<Trade>)
    requires 0 < j < |s|
    ensures |r| == |s| && multiset(r) == multiset(s)
  {
    s[j - 1 := s[j]][j := s[j - 1]]
  }

  lemma SiftStart(s: seq<Trade>, i: int)
    requires 0 <= i < |s| && SortedByTimestampDesc(s[..i])
    ensures Sifting(s, i, i)
  {
    forall p, q | 0 <= p < q <= i && p != i && q != i ensures s[p].timestamp >= s[q].timestamp {
      assert s[p] == s[..i][p] && s[q] == s[..i][q];
    }
  }

  /** One exchange moves the row one place left and keeps the picture. */
  lemma SiftStep(s: seq<Trade>, j: int, i: int)
    requires 0 < j <= i < |s| && Sifting(s, j, i) && s[j - 1].timestamp < s[j].timestamp
    ensures Sifting(Swapped(s, j), j - 1, i)
  {
  }

  /** Once the row meets one at least as recent, or the front, the prefix up to i is sorted. */
  lemma SiftDone(s: seq<Trade>, j: int, i: int)
    requires 0 <= j <= i < |s| && Sifting(s, j, i)
    requires j > 0 ==> s[j - 1].timestamp >= s[j].timestamp
    ensures SortedByTimestampDesc(s[..i + 1])
  {
    var r := s[..i + 1];
    forall p, q | 0 <= p < q < |r| ensures r[p].timestamp >= r[q].timestamp {
      if q == j && p < j - 1 {
        assert s[p].timestamp >= s[j - 1].timestamp;
      }
    }
  }

  class DynamoStore {
    var usersTable: map<UserId, real>        // `stocker_users`, the balance attribute
    var portfolioTable: map<Key, Position>   // `stocker_portfolio`, keyed by (user_id, symbol)
    var tradesTable: seq<Trade>              // `stocker_trades`, in the order the items were put

    function State(): Db
      reads this
    {
      Db(usersTable, portfolioTable, tradesTable)
    }

    ghost predicate Valid()
      reads this
    {
      Inv(State())
    }

    constructor (db: Db)
      ensures State() == db
    {
      usersTable, portfolioTable, tradesTable := db.balances, db.portfolio, db.trades;
    }

    /** `execute_trade` along its success and validation paths. */
    method ExecuteTrade(user: UserId, symbol: Symbol, action: string, quantity: int,
                        prices: map<Symbol, real>, now: int) returns (outcome: Outcome)
      requires quantity > 0 && Valid()
      modifies this
      ensures var step := Execute(old(State()), Order(user, symbol, action, quantity), prices, now);
              State() == step.db && outcome == step.outcome
      ensures PricesPositive(prices) ==> Valid()
    {
      ghost var before := State();
      ghost var order := Order(user, symbol, action, quantity);
      if symbol !in prices {
        return InvalidSymbol;
      }
      var currentPrice := prices[symbol];
      var totalCost := Amount(quantity, currentPrice);
      assert LedgerRow(order, currentPrice, now) == Trade(user, symbol, action, quantity, currentPrice, totalCost, now);
      if user !in usersTable {
        // get_item returns no 'Item'; the KeyError is caught before any write
        return ExecutionFailed;
      }
      var balance := usersTable[user];
      var key := (user, symbol);
      if IsBuy(action) {
        if balance < totalCost {
          return InsufficientBalance;
        }
        usersTable := usersTable[user := balance - totalCost];
        if key in portfolioTable {
          var item := portfolioTable[key];
          assert item.quantity > 0;
          var newQuantity := item.quantity + quantity;
          var newAvgPrice := (item.quantity as real * item.avgPrice + quantity as real * currentPrice)
                             / newQuantity as real;
          assert Blend(item, quantity, currentPrice) == Position(newQuantity, newAvgPrice);
          portfolioTable := portfolioTable[key := Position(newQuantity, newAvgPrice)];
        } else {
          portfolioTable := portfolioTable[key := Position(quantity, currentPrice)];
        }
        BuyCommits(before, order, prices, now, currentPrice, totalCost, usersTable, portfolioTable);
      } else {
        if key !in portfolioTable || portfolioTable[key].quantity < quantity {
          return InsufficientShares;
        }
        usersTable := usersTable[user := balance + totalCost];
        var oldQuantity := portfolioTable[key].quantity;
        var newQuantity := oldQuantity - quantity;
        if newQuantity == 0 {
          portfolioTable := portfolioTable - {key};
        } else {
          portfolioTable := portfolioTable[key := Position(newQuantity, portfolioTable[key].avgPrice)];
        }
        SellCommits(before, order, prices, now, currentPrice, totalCost, usersTable, portfolioTable);
      }
      var trade := Trade(user, symbol, action, quantity, currentPrice, totalCost, now);
      tradesTable := tradesTable + [trade];
      outcome := Executed(trade);
      if PricesPositive(prices) {
        StepPreservesInv(before, order, prices, now);
      }
    }

    /** `get_user_portfolio`: the query returns every item of the user, and the
        loop skips those whose quantity is not positive. */
    method GetUserPortfolio(user: UserId, prices: map<Symbol, real>) returns (lines: seq<Holding>, value: real)
      ensures IsValuation(portfolioTable, user, prices, lines, value)
    {
      var table := portfolioTable;
      var items := UserSymbols(table, user);  // query on the user_id key
      value := 0.0;
      lines := [];
      ghost var done: set<Symbol> := {};
      while items != {}
        invariant items + done == UserSymbols(table, user) && items !! done
        invariant PartialValuation(table, user, prices, lines, done)
        invariant value == TotalValue(lines)
        decreases items
      {
        var symbol :| symbol in items;
        if table[(user, symbol)].quantity > 0 {
          var line := PriceLine(table, user, prices, symbol);
          value := value + line.totalValue;
          ExtendPartial(table, user, prices, lines, done, symbol, line);
          TotalValueAppend(lines, line);
          lines := lines + [line];
        } else {
          ExtendPartial(table, user, prices, lines, done, symbol, Holding(symbol, 0, 0.0, 0.0, 0.0, 0.0));
        }
        items, done := items - {symbol}, done + {symbol};
      }
      PartialComplete(table, user, prices, lines, done, value);
    }

    /** `history`: the user's trades, most recent first. */
    method History(user: UserId) returns (rows: seq<Trade>)
      ensures SortedByTimestampDesc(rows)
      ensures multiset(rows) == multiset(TradesOf(tradesTable, user))
    {
      var found: seq<Trade> := [];
      var i := 0;
      while i < |tradesTable|
        invariant 0 <= i <= |tradesTable|
        invariant found == TradesOf(tradesTable[..i], user)
      {
        TradesOfPrefix(tradesTable, i, user);
        if tradesTable[i].user == user {
          found := found + [tradesTable[i]];
        }
        i := i + 1;
      }
      assert tradesTable[..i] == tradesTable;
      var sorted := new Trade[|found|](k requires 0 <= k < |found| => found[k]);
      assert sorted[..] == found;
      SortByTimestampDesc(sorted);
      rows := sorted[..];
    }

    /** The ledger figures of `admin_dashboard`: the number of trade items and
        the sum of `total` over the buy items. */
    method AdminDashboard() returns (totalTrades: nat, totalVolume: real)
      ensures totalTrades == |tradesTable|
      ensures totalVolume == BuyVolume(tradesTable)
      // a store that keeps the invariant never reports a negative volume
      ensures Valid() ==> totalVolume >= 0.0
    {
      totalTrades := |tradesTable|;
      totalVolume := 0.0;
      var i := 0;
      while i < |tradesTable|
        invariant 0 <= i <= |tradesTable|
        invariant totalVolume == BuyVolume(tradesTable[..i])
      {
        assert tradesTable[..i + 1][..i] == tradesTable[..i];
        if IsBuy(tradesTable[i].action) {
          totalVolume := totalVolume + tradesTable[i].total;
        }
        i := i + 1;
      }
      assert tradesTable[..i] == tradesTable;
      if Valid() {
        DashboardVolumeNonNegative(State());
      }
    }
  }
}
