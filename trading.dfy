/** The three tables of the Stocker trading engine, as values.

    users      : user id -> cash balance
    portfolio  : (user id, symbol) -> position (quantity, average purchase price)
    trades     : the append-only trade ledger, oldest first

    Money is an exact `real`; the program keeps it in binary floats. */
module Trading {

  type UserId = string
  type Symbol = string
  type Key = (UserId, Symbol)

  /** The program compares the submitted action word with "buy"; every other
      word takes the sell path, and the word itself is what the ledger records. */
  const BuyAction: string := "buy"

  predicate IsBuy(action: string) {
    action == BuyAction
  }

  /** What `quantity` shares come to at `price`: the `total` of a trade. */
  function Amount(quantity: int, price: real): real {
    quantity as real * price
  }

  /** One portfolio row. */
  datatype Position = Position(quantity: int, avgPrice: real)

  /** One ledger row. `timestamp` is the clock reading supplied at execution. */
  datatype Trade = Trade(
    user: UserId,
    symbol: Symbol,
    action: string,
    quantity: int,
    price: real,
    total: real,
    timestamp: int)

  /** A submitted order: the form fields symbol, action and quantity, and the session's user. */
  datatype Order = Order(user: UserId, symbol: Symbol, action: string, quantity: int)

  /** What the engine reports back; each failure is one of the program's flash messages. */
  datatype Outcome =
    | Executed(trade: Trade)   // "Successfully ..."
    | InvalidSymbol            // "Invalid stock symbol!"
    | InsufficientBalance      // "Insufficient balance!"
    | InsufficientShares       // "Insufficient shares!"
    | ExecutionFailed          // "Trade execution failed!" (an exception, rolled back)

  /** The whole store: the three tables. */
  datatype Db = Db(balances: map<UserId, real>, portfolio: map<Key, Position>, trades: seq<Trade>)

  /** The quantity a user holds of a symbol; an absent row means nothing held. */
  function Held(portfolio: map<Key, Position>, user: UserId, symbol: Symbol): int {
    if (user, symbol) in portfolio then portfolio[(user, symbol)].quantity else 0
  }

  /** Every price the price table offers is positive. */
  ghost predicate PricesPositive(prices: map<Symbol, real>) {
    forall s :: s in prices ==> prices[s] > 0.0
  }

  /** A well-formed ledger row: a positive quantity at a positive price, its total
      at that price, and it belongs to an existing user. */
  ghost predicate TradeOk(db: Db, t: Trade) {
    t.user in db.balances && t.quantity > 0 && t.price > 0.0 && t.total == Amount(t.quantity, t.price)
  }

  /** Every row belongs to an account and holds a positive quantity at a positive average price. */
  ghost predicate RowsOk(balances: map<UserId, real>, portfolio: map<Key, Position>) {
    forall k :: k in portfolio ==> k.0 in balances && portfolio[k].quantity > 0 && portfolio[k].avgPrice > 0.0
  }

  /** The accounting invariant of the store:
      no negative balance, no zero-quantity row (it is deleted, not zeroed),
      a positive average price on every row, and no row of a user that does not exist. */
  ghost predicate Inv(db: Db) {
    (forall u :: u in db.balances ==> db.balances[u] >= 0.0)
    && RowsOk(db.balances, db.portfolio)
    && (forall i :: 0 <= i < |db.trades| ==> TradeOk(db, db.trades[i]))
  }
}
