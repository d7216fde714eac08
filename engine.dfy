/** The trade execution engine of `execute_trade` as a function from the store
    before an order to the store after it, and what it guarantees over runs of orders. */
module Engine {
  import opened Trading
  import opened Ledger

  datatype StepResult = StepResult(db: Db, outcome: Outcome)

  /** The ledger row a successful order appends: the execution price and
      `total = quantity * price` at that price. */
  function LedgerRow(o: Order, price: real, now: int): (t: Trade)
    ensures t.user == o.user && t.symbol == o.symbol && t.action == o.action
    ensures t.quantity == o.quantity && t.price == price && t.timestamp == now
    ensures t.total == Amount(o.quantity, price)
  {
    Trade(o.user, o.symbol, o.action, o.quantity, price, Amount(o.quantity, price), now)
  }

  /** The buy path, once the symbol and the user have been found. */
  function Buy(db: Db, o: Order, price: real, now: int): (r: StepResult)
    requires o.user in db.balances && o.quantity > 0
    ensures var cost := Amount(o.quantity, price);
            r.outcome == InsufficientBalance <==> db.balances[o.user] < cost
    ensures r.outcome.Executed? || r.outcome == InsufficientBalance || r.outcome == ExecutionFailed
    // a division by a zero share count raises, and the transaction is rolled back
    ensures r.outcome == ExecutionFailed <==>
              db.balances[o.user] >= Amount(o.quantity, price)
              && (o.user, o.symbol) in db.portfolio
              && db.portfolio[(o.user, o.symbol)].quantity + o.quantity == 0
    ensures !r.outcome.Executed? ==> r.db == db
    ensures r.outcome.Executed? ==>
              var cost := Amount(o.quantity, price);
              var key := (o.user, o.symbol);
              && r.outcome.trade == LedgerRow(o, price, now)
              && r.db.trades == db.trades + [r.outcome.trade]
              // a committed buy never overdraws the account
              && r.db.balances == db.balances[o.user := db.balances[o.user] - cost]
              && r.db.balances[o.user] >= 0.0
              && key in r.db.portfolio
              && r.db.portfolio - {key} == db.portfolio - {key}
              && (key !in db.portfolio ==> r.db.portfolio[key] == Position(o.quantity, price))
              && (key in db.portfolio ==>
                    var was := db.portfolio[key];
                    var after := r.db.portfolio[key];
                    && after.quantity == was.quantity + o.quantity
                    // weighted average: the cost basis grows by exactly the cost of the purchase
                    && after.quantity as real * after.avgPrice == was.quantity as real * was.avgPrice + cost)
  {
    var balance := db.balances[o.user];
    var cost := Amount(o.quantity, price);
    var key := (o.user, o.symbol);
    if balance < cost then StepResult(db, InsufficientBalance)
    else if key in db.portfolio && db.portfolio[key].quantity + o.quantity == 0 then
      StepResult(db, ExecutionFailed)  // ZeroDivisionError, rolled back
    else
      var position := if key in db.portfolio then Blend(db.portfolio[key], o.quantity, price)
                      else Position(o.quantity, price);
      var t := LedgerRow(o, price, now);
      StepResult(Db(db.balances[o.user := balance - cost], db.portfolio[key := position], db.trades + [t]),
                 Executed(t))
  }

  /** `q` more shares bought at `price` onto an existing row: the quantities add
      and the average is weighted by them. */
  function Blend(was: Position, q: int, price: real): (p: Position)
    requires was.quantity + q != 0
    ensures p.quantity == was.quantity + q
    ensures p.quantity as real * p.avgPrice == was.quantity as real * was.avgPrice + q as real * price
  {
    var newQuantity := was.quantity + q;
    Position(newQuantity, (was.quantity as real * was.avgPrice + q as real * price) / newQuantity as real)
  }

  /** The sell path, once the symbol and the user have been found. */
  function Sell(db: Db, o: Order, price: real, now: int): (r: StepResult)
    requires o.user in db.balances && o.quantity > 0
    ensures var key := (o.user, o.symbol);
            r.outcome == InsufficientShares <==>
              key !in db.portfolio || db.portfolio[key].quantity < o.quantity
    ensures r.outcome.Executed? || r.outcome == InsufficientShares
    ensures !r.outcome.Executed? ==> r.db == db
    ensures r.outcome.Executed? ==>
              var proceeds := Amount(o.quantity, price);
              var key := (o.user, o.symbol);
              var was := db.portfolio[key];
              && r.outcome.trade == LedgerRow(o, price, now)
              && r.db.trades == db.trades + [r.outcome.trade]
              && r.db.balances == db.balances[o.user := db.balances[o.user] + proceeds]
              && r.db.portfolio - {key} == db.portfolio - {key}
              // no zero-quantity row is left behind
              && (key in r.db.portfolio <==> was.quantity != o.quantity)
              // a sell changes the quantity only, never the average price
              && (key in r.db.portfolio ==>
                    r.db.portfolio[key] == Position(was.quantity - o.quantity, was.avgPrice))
  {
    var key := (o.user, o.symbol);
    if key !in db.portfolio || db.portfolio[key].quantity < o.quantity then
      StepResult(db, InsufficientShares)
    else
      var balance := db.balances[o.user];
      var was := db.portfolio[key];
      var newQuantity := was.quantity - o.quantity;
      var portfolio :=
        if newQuantity == 0 then db.portfolio - {key}
        else db.portfolio[key := Position(newQuantity, was.avgPrice)];
      var t := LedgerRow(o, price, now);
      StepResult(Db(db.balances[o.user := balance + Amount(o.quantity, price)], portfolio, db.trades + [t]),
                 Executed(t))
  }

  /** One order against the store and the price table. */
  function Execute(db: Db, o: Order, prices: map<Symbol, real>, now: int): (r: StepResult)
    requires o.quantity > 0
    // an unknown symbol is turned away whatever the store holds
    ensures o.symbol !in prices ==> r == StepResult(db, InvalidSymbol)
    ensures o.symbol in prices && o.user !in db.balances ==> r == StepResult(db, ExecutionFailed)
    // no partial commit
    ensures !r.outcome.Executed? ==> r.db == db
    // exactly one ledger row per committed order, at the execution price
    ensures r.outcome.Executed? ==>
              o.symbol in prices && r.outcome.trade == LedgerRow(o, prices[o.symbol], now)
              && r.db.trades == db.trades + [r.outcome.trade]
    ensures r.db.balances.Keys == db.balances.Keys
    // nobody else's account and no other position is touched
    ensures forall v :: v in db.balances && v != o.user ==> r.db.balances[v] == db.balances[v]
    ensures r.db.portfolio - {(o.user, o.symbol)} == db.portfolio - {(o.user, o.symbol)}
  {
    if o.symbol !in prices then StepResult(db, InvalidSymbol)
    else if o.user !in db.balances then StepResult(db, ExecutionFailed)
    else if IsBuy(o.action) then Buy(db, o, prices[o.symbol], now)
    else Sell(db, o, prices[o.symbol], now)
  }

  /** A buy that passes both checks commits exactly the tables the transaction wrote. */
  lemma BuyCommits(db: Db, o: Order, prices: map<Symbol, real>, now: int, price: real, cost: real,
                   balances: map<UserId, real>, portfolio: map<Key, Position>)
    requires o.quantity > 0 && o.symbol in prices && o.user in db.balances && IsBuy(o.action)
    requires price == prices[o.symbol] && cost == Amount(o.quantity, price)
    requires db.balances[o.user] >= cost
    requires (o.user, o.symbol) in db.portfolio ==> db.portfolio[(o.user, o.symbol)].quantity + o.quantity != 0
    requires balances == db.balances[o.user := db.balances[o.user] - cost]
    requires var key := (o.user, o.symbol);
             portfolio == db.portfolio[key := if key in db.portfolio then Blend(db.portfolio[key], o.quantity, price)
                                              else Position(o.quantity, price)]
    ensures Execute(db, o, prices, now)
              == StepResult(Db(balances, portfolio, db.trades + [LedgerRow(o, price, now)]), Executed(LedgerRow(o, price, now)))
  {
    var r := Buy(db, o, price, now);
    assert Execute(db, o, prices, now) == r;
    assert r.db.balances == balances;
    assert r.db.portfolio == portfolio;
    assert r.outcome == Executed(LedgerRow(o, price, now));
  }

  /** A sell that passes its check commits exactly the tables the transaction wrote. */
  lemma SellCommits(db: Db, o: Order, prices: map<Symbol, real>, now: int, price: real, cost: real,
                    balances: map<UserId, real>, portfolio: map<Key, Position>)
    requires o.quantity > 0 && o.symbol in prices && o.user in db.balances && !IsBuy(o.action)
    requires price == prices[o.symbol] && cost == Amount(o.quantity, price)
    requires (o.user, o.symbol) in db.portfolio && db.portfolio[(o.user, o.symbol)].quantity >= o.quantity
    requires balances == db.balances[o.user := db.balances[o.user] + cost]
    requires var key := (o.user, o.symbol);
             var was := db.portfolio[key];
             portfolio == if was.quantity - o.quantity == 0 then db.portfolio - {key}
                          else db.portfolio[key := Position(was.quantity - o.quantity, was.avgPrice)]
    ensures Execute(db, o, prices, now)
              == StepResult(Db(balances, portfolio, db.trades + [LedgerRow(o, price, now)]), Executed(LedgerRow(o, price, now)))
  {
    var r := Sell(db, o, price, now);
    assert Execute(db, o, prices, now) == r;
    assert r.db.balances == balances;
    assert r.db.portfolio == portfolio;
    assert r.outcome == Executed(LedgerRow(o, price, now));
  }

  /** An order together with the price table and clock reading it met. */
  datatype Request = Request(order: Order, prices: map<Symbol, real>, now: int)

  ghost predicate Submittable(reqs: seq<Request>) {
    forall i :: 0 <= i < |reqs| ==> reqs[i].order.quantity > 0
  }

  /** A run of orders, executed one after another (the last one last). */
  function Run(db: Db, reqs: seq<Request>): (r: Db)
    requires Submittable(reqs)
    // the ledger is append-only, and no account appears or disappears
    ensures db.trades <= r.trades
    ensures r.balances.Keys == db.balances.Keys
    decreases |reqs|
  {
    if reqs == [] then db
    else
      var last := reqs[|reqs| - 1];
      Execute(Run(db, reqs[..|reqs| - 1]), last.order, last.prices, last.now).db
  }

  /** The ledger rows a run appended. */
  function Appended(db: Db, reqs: seq<Request>): seq<Trade>
    requires Submittable(reqs)
  {
    Run(db, reqs).trades[|db.trades|..]
  }

  /** One step of the run: the rows it appended are those of the prefix plus the step's own. */
  lemma AppendedStep(db: Db, reqs: seq<Request>)
    requires Submittable(reqs) && reqs != []
    ensures var init := reqs[..|reqs| - 1];
            var last := reqs[|reqs| - 1];
            var step := Execute(Run(db, init), last.order, last.prices, last.now);
            Appended(db, reqs) ==
              if step.outcome.Executed? then Appended(db, init) + [step.outcome.trade] else Appended(db, init)
  {
  }

  /** What one ledger row did to a user's cash. */
  function CashEffect(t: Trade, u: UserId): real {
    if t.user != u then 0.0 else if IsBuy(t.action) then -t.total else t.total
  }

  /** What one ledger row did to a user's holding of a symbol. */
  function ShareEffect(t: Trade, u: UserId, s: Symbol): int {
    if t.user != u || t.symbol != s then 0 else if IsBuy(t.action) then t.quantity else -t.quantity
  }

  /** One order moves a user's cash by exactly what its ledger row records. */
  lemma StepCash(db: Db, o: Order, prices: map<Symbol, real>, now: int, u: UserId)
    requires o.quantity > 0 && u in db.balances
    ensures var r := Execute(db, o, prices, now);
            u in r.db.balances
            && r.db.balances[u] == db.balances[u] + (if r.outcome.Executed? then CashEffect(r.outcome.trade, u) else 0.0)
  {
    var r := Execute(db, o, prices, now);
    if r.outcome.Executed? && u == o.user {
      if IsBuy(o.action) {
        var b := Buy(db, o, prices[o.symbol], now);
        assert r == b;
      } else {
        var b := Sell(db, o, prices[o.symbol], now);
        assert r == b;
      }
    }
  }

  /** One order moves a user's holding by exactly what its ledger row records. */
  lemma StepShares(db: Db, o: Order, prices: map<Symbol, real>, now: int, u: UserId, s: Symbol)
    requires o.quantity > 0
    ensures var r := Execute(db, o, prices, now);
            Held(r.db.portfolio, u, s) == Held(db.portfolio, u, s) + (if r.outcome.Executed? then ShareEffect(r.outcome.trade, u, s) else 0)
  {
    var r := Execute(db, o, prices, now);
    var key := (o.user, o.symbol);
    if r.outcome.Executed? {
      if (u, s) == key {
        if IsBuy(o.action) {
          var b := Buy(db, o, prices[o.symbol], now);
          assert r == b;
        } else {
          var b := Sell(db, o, prices[o.symbol], now);
          assert r == b;
        }
      } else {
        assert (u, s) in r.db.portfolio <==> (u, s) in r.db.portfolio - {key};
        assert (u, s) in db.portfolio <==> (u, s) in db.portfolio - {key};
        if (u, s) in db.portfolio {
          assert r.db.portfolio[(u, s)] == (r.db.portfolio - {key})[(u, s)];
        }
      }
    }
  }

  /** Funds conservation: a user's balance is the starting balance, less what the
      run's buys of that user cost, plus what the run's sells brought in. */
  lemma {:induction false} CashConservation(db: Db, reqs: seq<Request>, u: UserId)
    requires Submittable(reqs) && u in db.balances
    ensures var mine := TradesOf(Appended(db, reqs), u);
            Run(db, reqs).balances[u] == db.balances[u] - BuyVolume(mine) + SellVolume(mine)
    decreases |reqs|
  {
    if reqs != [] {
      var init, last := reqs[..|reqs| - 1], reqs[|reqs| - 1];
      CashConservation(db, init, u);
      AppendedStep(db, reqs);
      var mid := Run(db, init);
      StepCash(mid, last.order, last.prices, last.now, u);
      var step := Execute(mid, last.order, last.prices, last.now);
      if step.outcome.Executed? {
        var t := step.outcome.trade;
        var before := Appended(db, init);
        AppendOne(before, t, u, t.symbol);
        AppendOne(TradesOf(before, u), t, u, t.symbol);
      }
    }
  }

  /** Position conservation: what a user holds of a symbol is what they held,
      plus what the run bought of it for them, minus what it sold. */
  lemma {:induction false} QuantityConservation(db: Db, reqs: seq<Request>, u: UserId, s: Symbol)
    requires Submittable(reqs)
    ensures Held(Run(db, reqs).portfolio, u, s)
              == Held(db.portfolio, u, s) + NetQuantity(TradesOf(Appended(db, reqs), u), s)
    decreases |reqs|
  {
    if reqs != [] {
      var init, last := reqs[..|reqs| - 1], reqs[|reqs| - 1];
      QuantityConservation(db, init, u, s);
      AppendedStep(db, reqs);
      var mid := Run(db, init);
      StepShares(mid, last.order, last.prices, last.now, u, s);
      var step := Execute(mid, last.order, last.prices, last.now);
      if step.outcome.Executed? {
        var t := step.outcome.trade;
        var before := Appended(db, init);
        AppendOne(before, t, u, s);
        AppendOne(TradesOf(before, u), t, u, s);
      }
    }
  }

  /** Blending a positive cost basis with a positive purchase keeps the average price positive. */
  lemma BlendPositive(oldQ: int, oldAvg: real, q: int, price: real, newQ: int, newAvg: real)
    requires oldQ > 0 && oldAvg > 0.0 && q > 0 && price > 0.0 && newQ > 0
    requires newQ as real * newAvg == oldQ as real * oldAvg + q as real * price
    ensures newAvg > 0.0
  {
    assert oldQ as real * oldAvg > 0.0;
    assert q as real * price > 0.0;
  }

  /** Writing a positive row for an existing account keeps every row well-formed. */
  lemma SetRowKeepsRows(balances: map<UserId, real>, balances': map<UserId, real>,
                        pf: map<Key, Position>, key: Key, p: Position)
    requires RowsOk(balances, pf) && balances'.Keys == balances.Keys
    requires key.0 in balances && p.quantity > 0 && p.avgPrice > 0.0
    ensures RowsOk(balances', pf[key := p])
  {
  }

  /** Deleting a row keeps every other row well-formed. */
  lemma DropRowKeepsRows(balances: map<UserId, real>, balances': map<UserId, real>, pf: map<Key, Position>, key: Key)
    requires RowsOk(balances, pf) && balances'.Keys == balances.Keys
    ensures RowsOk(balances', pf - {key})
  {
  }

  /** A committed buy keeps the accounting invariant. */
  lemma BuyPreservesInv(db: Db, o: Order, price: real, now: int)
    requires Inv(db) && o.user in db.balances && o.quantity > 0 && price > 0.0
    ensures Inv(Buy(db, o, price, now).db)
  {
    var r := Buy(db, o, price, now);
    if r.outcome.Executed? {
      BuyKeepsRows(db, o, price, now);
      BuyKeepsBalances(db, o, price, now);
      CommitKeepsInv(db, r.db, r.outcome.trade);
    }
  }

  /** After a committed buy every row is still well-formed. */
  lemma BuyKeepsRows(db: Db, o: Order, price: real, now: int)
    requires Inv(db) && o.user in db.balances && o.quantity > 0 && price > 0.0
    requires Buy(db, o, price, now).outcome.Executed?
    ensures RowsOk(Buy(db, o, price, now).db.balances, Buy(db, o, price, now).db.portfolio)
  {
    var r := Buy(db, o, price, now);
    var key := (o.user, o.symbol);
    var position := if key in db.portfolio then Blend(db.portfolio[key], o.quantity, price)
                    else Position(o.quantity, price);
    if key in db.portfolio {
      var was := db.portfolio[key];
      BlendPositive(was.quantity, was.avgPrice, o.quantity, price, position.quantity, position.avgPrice);
    }
    assert r.db.portfolio == db.portfolio[key := position];
    SetRowKeepsRows(db.balances, r.db.balances, db.portfolio, key, position);
  }

  /** After a committed buy no balance is negative. */
  lemma BuyKeepsBalances(db: Db, o: Order, price: real, now: int)
    requires Inv(db) && o.user in db.balances && o.quantity > 0
    requires Buy(db, o, price, now).outcome.Executed?
    ensures var b := Buy(db, o, price, now).db.balances;
            forall v :: v in b ==> b[v] >= 0.0
  {
    var b := Buy(db, o, price, now).db.balances;
    forall v | v in b ensures b[v] >= 0.0 {
      if v != o.user {
        assert b[v] == db.balances[v];
      }
    }
  }

  /** A committed sell keeps the accounting invariant. */
  lemma SellPreservesInv(db: Db, o: Order, price: real, now: int)
    requires Inv(db) && o.user in db.balances && o.quantity > 0 && price > 0.0
    ensures Inv(Sell(db, o, price, now).db)
  {
    var r := Sell(db, o, price, now);
    var key := (o.user, o.symbol);
    if r.outcome.Executed? {
      assert RowsOk(r.db.balances, r.db.portfolio) by {
        var was := db.portfolio[key];
        if was.quantity == o.quantity {
          assert r.db.portfolio == db.portfolio - {key};
          DropRowKeepsRows(db.balances, r.db.balances, db.portfolio, key);
        } else {
          var p := Position(was.quantity - o.quantity, was.avgPrice);
          assert r.db.portfolio == db.portfolio[key := p];
          SetRowKeepsRows(db.balances, r.db.balances, db.portfolio, key, p);
        }
      }
      assert forall v :: v in r.db.balances ==> r.db.balances[v] >= 0.0 by {
        assert o.quantity as real * price > 0.0;
      }
      CommitKeepsInv(db, r.db, r.outcome.trade);
    }
  }

  /** A commit that keeps the balances non-negative and the rows well-formed, and appends one
      well-formed row for an existing account, keeps the accounting invariant. */
  lemma CommitKeepsInv(db: Db, db': Db, t: Trade)
    requires Inv(db) && db'.balances.Keys == db.balances.Keys
    requires forall v :: v in db'.balances ==> db'.balances[v] >= 0.0
    requires RowsOk(db'.balances, db'.portfolio)
    requires db'.trades == db.trades + [t] && TradeOk(db', t)
    ensures Inv(db')
  {
    assert db'.trades[..|db.trades|] == db.trades;
    TradesStayOk(db, db');
  }

  /** Appending a well-formed row of an existing user to a well-formed ledger keeps it well-formed. */
  lemma TradesStayOk(db: Db, db': Db)
    requires Inv(db) && db'.balances.Keys == db.balances.Keys
    requires |db'.trades| == |db.trades| + 1 && db'.trades[..|db.trades|] == db.trades
    requires TradeOk(db', db'.trades[|db.trades|])
    ensures forall i :: 0 <= i < |db'.trades| ==> TradeOk(db', db'.trades[i])
  {
    forall i | 0 <= i < |db'.trades| ensures TradeOk(db', db'.trades[i]) {
      if i < |db.trades| {
        assert db'.trades[i] == db.trades[i];
        assert TradeOk(db, db.trades[i]);
      }
    }
  }

  /** Every order keeps the accounting invariant, provided the price table is positive. */
  lemma StepPreservesInv(db: Db, o: Order, prices: map<Symbol, real>, now: int)
    requires Inv(db) && o.quantity > 0 && PricesPositive(prices)
    ensures Inv(Execute(db, o, prices, now).db)
  {
    if o.symbol in prices && o.user in db.balances {
      if IsBuy(o.action) {
        BuyPreservesInv(db, o, prices[o.symbol], now);
      } else {
        SellPreservesInv(db, o, prices[o.symbol], now);
      }
    }
  }

  /** The accounting invariant holds after every run. */
  lemma {:induction false} RunPreservesInv(db: Db, reqs: seq<Request>)
    requires Inv(db) && Submittable(reqs)
    requires forall i :: 0 <= i < |reqs| ==> PricesPositive(reqs[i].prices)
    ensures Inv(Run(db, reqs))
    decreases |reqs|
  {
    if reqs != [] {
      var init, last := reqs[..|reqs| - 1], reqs[|reqs| - 1];
      RunPreservesInv(db, init);
      StepPreservesInv(Run(db, init), last.order, last.prices, last.now);
    }
  }

  /** Average-cost correctness: buying q1 at p1 into an empty position and then q2 at p2
      leaves the average price at (q1*p1 + q2*p2)/(q1 + q2). */
  lemma TwoBuysAverage(db: Db, u: UserId, s: Symbol, q1: int, p1: real, q2: int, p2: real, t1: int, t2: int)
    requires u in db.balances && (u, s) !in db.portfolio
    requires q1 > 0 && q2 > 0 && p1 > 0.0 && p2 > 0.0
    requires db.balances[u] >= q1 as real * p1 + q2 as real * p2
    ensures var first := Buy(db, Order(u, s, BuyAction, q1), p1, t1);
            var second := Buy(first.db, Order(u, s, BuyAction, q2), p2, t2);
            && first.outcome.Executed? && second.outcome.Executed?
            && second.db.portfolio[(u, s)].quantity == q1 + q2
            && second.db.portfolio[(u, s)].avgPrice == (q1 as real * p1 + q2 as real * p2) / (q1 + q2) as real
  {
    assert q2 as real * p2 > 0.0;
    var first := Buy(db, Order(u, s, BuyAction, q1), p1, t1);
    assert first.db.portfolio[(u, s)] == Position(q1, p1);
    var second := Buy(first.db, Order(u, s, BuyAction, q2), p2, t2);
    var now := second.db.portfolio[(u, s)];
    DivideBack((q1 + q2) as real, now.avgPrice, q1 as real * p1 + q2 as real * p2);
  }

  lemma DivideBack(n: real, a: real, x: real)
    requires n != 0.0 && n * a == x
    ensures a == x / n
  {
  }

  /** A worked example: 10000 in cash; buy 10 AAPL at 185.50, buy 5 AAPL at 190.00,
      sell all 15 at 200.00. */
  lemma AaplScenario()
    ensures var db0 := Db(map["alice" := 10000.0], map[], []);
            var s1 := Execute(db0, Order("alice", "AAPL", "buy", 10), map["AAPL" := 185.50], 1);
            var s2 := Execute(s1.db, Order("alice", "AAPL", "buy", 5), map["AAPL" := 190.00], 2);
            var s3 := Execute(s2.db, Order("alice", "AAPL", "sell", 15), map["AAPL" := 200.00], 3);
            && s1.db.balances["alice"] == 8145.00
            && s1.db.portfolio[("alice", "AAPL")] == Position(10, 185.50)
            && s2.db.balances["alice"] == 7195.00
            && s2.db.portfolio[("alice", "AAPL")] == Position(15, 187.00)
            && s3.db.balances["alice"] == 10195.00
            && ("alice", "AAPL") !in s3.db.portfolio
            && |s3.db.trades| == 3
  {
    var db0 := Db(map["alice" := 10000.0], map[], []);
    var s1 := Execute(db0, Order("alice", "AAPL", "buy", 10), map["AAPL" := 185.50], 1);
    assert s1.db.portfolio[("alice", "AAPL")] == Position(10, 185.50);
    var s2 := Execute(s1.db, Order("alice", "AAPL", "buy", 5), map["AAPL" := 190.00], 2);
    assert s2.db.portfolio[("alice", "AAPL")].quantity == 15;
    assert 15.0 * s2.db.portfolio[("alice", "AAPL")].avgPrice == 2805.0;
  }

  /** A buy the cash does not cover leaves the store as it was. */
  lemma InsufficientFundsScenario()
    ensures var db0 := Db(map["bob" := 100.0], map[], []);
            Execute(db0, Order("bob", "AAPL", "buy", 1), map["AAPL" := 185.50], 1)
              == StepResult(db0, InsufficientBalance)
  {
  }

  /** A buy raises the admin dashboard's volume by exactly its total; nothing else moves it. */
  lemma BuyVolumeOfExecute(db: Db, o: Order, prices: map<Symbol, real>, now: int)
    requires o.quantity > 0
    ensures var r := Execute(db, o, prices, now);
            BuyVolume(r.db.trades) ==
              BuyVolume(db.trades) + (if r.outcome.Executed? && IsBuy(o.action) then r.outcome.trade.total else 0.0)
  {
    var r := Execute(db, o, prices, now);
    if r.outcome.Executed? {
      AppendOne(db.trades, r.outcome.trade, o.user, o.symbol);
    }
  }

  /** The store after `delete_user`: the user's positions, trades and account are gone. */
  function RemoveUser(db: Db, u: UserId): (r: Db)
    ensures u !in r.balances
    // exactly the user's account and rows go, and nothing new appears
    ensures r.balances.Keys == db.balances.Keys - {u}
    ensures forall k :: k in r.portfolio <==> k in db.portfolio && k.0 != u
    ensures forall k :: k in r.portfolio ==> k.0 != u
    ensures forall t :: t in r.trades ==> t.user != u
    // nobody else loses anything
    ensures forall v :: v in db.balances && v != u ==> v in r.balances && r.balances[v] == db.balances[v]
    ensures forall k :: k in db.portfolio && k.0 != u ==> k in r.portfolio && r.portfolio[k] == db.portfolio[k]
    ensures forall v :: v != u ==> TradesOf(r.trades, v) == TradesOf(db.trades, v)
  {
    var portfolio := map k | k in db.portfolio && k.0 != u :: db.portfolio[k];
    var trades := WithoutUser(db.trades, u);
    forall v | v != u ensures TradesOf(trades, v) == TradesOf(db.trades, v) {
      WithoutUserKeepsOthers(db.trades, u, v);
    }
    Db(db.balances - {u}, portfolio, trades)
  }

  /** Removing a user keeps the accounting invariant: nothing is left that refers to them. */
  lemma RemoveUserPreservesInv(db: Db, u: UserId)
    requires Inv(db)
    ensures Inv(RemoveUser(db, u))
  {
    var r := RemoveUser(db, u);
    forall i | 0 <= i < |r.trades| ensures TradeOk(r, r.trades[i]) {
      var t := r.trades[i];
      assert t in r.trades;
      assert t in WithoutUser(db.trades, u);
      var j :| 0 <= j < |db.trades| && db.trades[j] == t;
      assert TradeOk(db, db.trades[j]);
    }
  }
}
