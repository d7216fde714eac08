# Stocker trade engine — a Dafny model

Stocker is a small Flask stock-trading site. It exists as two near-identical
programs. `app.py` keeps its tables in SQLite. `aws_app.py` keeps them in
DynamoDB. The core of both is the same engine over three tables:

- `users`: each account's cash balance;
- `portfolio`: one row per (user, symbol), holding a share count and a
  weighted average purchase price;
- `trades`: the append-only ledger of executed orders.

`execute_trade` takes an order (user, symbol, action, quantity) and a price
from the price table. It rejects symbols the table does not list. A buy needs
enough cash; it debits `quantity * price` and then creates the row at that
price or blends it into the existing row's average. A sell needs enough shares;
it credits the proceeds and deletes the row when the count reaches zero,
otherwise only the count changes. Each executed order appends exactly one
ledger row. `get_user_portfolio` prices every row with a positive quantity at
the current price and sums the values. `history` lists a user's trades, most
recent first. `admin_dashboard` counts the trades and sums the buy totals.
`delete_user` removes an account with its rows and trades.

The project is laid out like the program:

- `trading.dfy` (module `Trading`): the tables as values (`Db`), the rows, the
  order, the outcomes, and the accounting invariant `Inv`. The invariant says
  no balance is negative, no row has a zero quantity, every average price is
  positive, every row and every trade belongs to an account, and every trade
  has a positive quantity at a positive price and a total of quantity times price.
- `ledger.dfy` (module `Ledger`): queries and aggregates over the ledger.
- `engine.dfy` (module `Engine`): `Execute` is the engine as a function from
  the tables before an order to the tables after it and the outcome. `Run`
  executes a sequence of orders. The lemmas here prove cash and quantity
  conservation against the ledger and preservation of `Inv`.
- `valuation.dfy` (module `Valuation`): what a correct portfolio page is
  (`IsValuation`) and the lemmas about its totals.
- `local_app.dfy` (module `LocalApp`): class `SqliteStore`. Its
  `ExecuteTrade` writes into a transaction's copies of the tables and commits
  them at the end. Every early return comes before the commit.
- `aws_app.dfy` (module `AwsApp`): class
  `DynamoStore`, whose `ExecuteTrade` writes each table straight away. It also
  holds the in-place sort that `history` uses.

Both `ExecuteTrade` methods are proved to leave exactly the tables `Execute`
computes and to return its outcome (the DynamoDB one on tables that keep the
invariant). Both `GetUserPortfolio` loops are proved to
return a valuation in the sense of `IsValuation`.

Inputs the program reads from its environment are parameters:

- the price table is a map from symbol to price;
- the clock reading is an integer `now`;
- the logged-in user is the order's `user`.

Money is an exact `real`. The program uses binary floats.

Choices the model makes:

- Only the action word `"buy"` takes the buy path; every other word is a sell,
  and the word is written to the ledger as given.
- A failure is one of the program's flash messages. No `ConcurrentConflict` or
  `StoreUnavailable` outcome exists. An exception inside the transaction
  (an unknown user; a division by a zero share count) is `ExecutionFailed`
  and changes nothing, because the transaction is rolled back.
- The DynamoDB program is not atomic. The model covers only its success and
  validation paths.
- An order's quantity is never checked by the program. The model requires
  `quantity > 0` of its callers and does not invent a rejection. Without it
  the program misbehaves: a buy of 0 shares with no existing row inserts a
  zero-quantity row, and a sell of -n shares passes the share check and takes
  n × price from the balance with no funds check, so the balance can go
  negative. The invariant `Inv` holds only for positive quantities.

## Model

| member | source | states |
|---|---|---|
| Engine.Execute | stocker_project_aws/stocker/app.py:222-321 | an unknown symbol gives `InvalidSymbol` and an unknown user `ExecutionFailed`, neither changing anything; no failure changes anything; an executed order appends exactly one ledger row, at the execution price; no other account and no other position changes, and the set of accounts stays the same |
| Engine.Buy | stocker_project_aws/stocker/app.py:246-275 | rejected with `InsufficientBalance` exactly when the balance is below `quantity * price`; a zero resulting share count is `ExecutionFailed`; otherwise the balance is debited by the cost and stays non-negative, a new row gets the order's quantity at the price, an existing row's count grows by `q` and its cost basis by exactly the cost, and one row is appended |
| Engine.Blend | stocker_project_aws/stocker/app.py:263-270 | counts add, and new count × new average == old count × old average + q × price |
| Engine.Sell | stocker_project_aws/stocker/app.py:277-304 | rejected with `InsufficientShares` exactly when the row is missing or holds fewer shares; otherwise the proceeds are credited, the row is deleted exactly when the count reaches zero and otherwise keeps its average price, and one row is appended |
| Engine.LedgerRow | stocker_project_aws/stocker/app.py:306-310 | the row records the order's user, symbol, action and quantity, the execution price, the clock reading, and `total = quantity * price` |
| Engine.BuyCommits | stocker_project_aws/stocker/app.py:252-275 | a buy that passes both checks commits exactly the debited balance table and the created or blended portfolio table, with the row appended |
| Engine.SellCommits | stocker_project_aws/stocker/app.py:290-304 | a sell that passes its check commits exactly the credited balance table and the deleted or decremented portfolio table, with the row appended |
| Engine.Run | stocker_project_aws/stocker/app.py:222-321 | over any run of orders the ledger only grows and no account appears or disappears |
| Engine.AppendedStep | stocker_project_aws/stocker/app.py:306-312 | the rows a run appends are those of its prefix plus the last order's row if that order executed |
| Engine.StepCash | stocker_project_aws/stocker/app.py:252-292 | one order moves a user's balance by exactly the cash effect of the row it appended, and by nothing otherwise |
| Engine.StepShares | stocker_project_aws/stocker/app.py:263-304 | one order moves a user's holding of a symbol by exactly the share effect of the row it appended |
| Engine.CashConservation | stocker_project_aws/stocker/app.py:246-312 | after a run, a user's balance is the starting balance minus the buy totals plus the sell totals of that user's appended rows |
| Engine.QuantityConservation | stocker_project_aws/stocker/app.py:263-312 | after a run, a user's holding of a symbol is the starting holding plus the shares bought minus the shares sold in that user's appended rows |
| Engine.BlendPositive | stocker_project_aws/stocker/app.py:263-270 | blending a positive cost basis with a positive purchase keeps the average price positive |
| Engine.SetRowKeepsRows | stocker_project_aws/stocker/app.py:266-275 | writing a positive row for an existing account keeps every row well formed |
| Engine.DropRowKeepsRows | stocker_project_aws/stocker/app.py:295-297 | deleting a row keeps every other row well formed |
| Engine.BuyKeepsRows | stocker_project_aws/stocker/app.py:263-275 | after a committed buy at a positive price every row is still well formed |
| Engine.BuyKeepsBalances | stocker_project_aws/stocker/app.py:247-254 | after a committed buy no balance is negative |
| Engine.CommitKeepsInv | stocker_project_aws/stocker/app.py:306-312 | a commit with non-negative balances and well-formed rows that appends one well-formed row keeps the invariant |
| Engine.TradesStayOk | stocker_project_aws/stocker/app.py:306-310 | appending a well-formed row to a well-formed ledger keeps every row well formed |
| Engine.BuyPreservesInv | stocker_project_aws/stocker/app.py:246-275 | the buy path keeps the accounting invariant |
| Engine.SellPreservesInv | stocker_project_aws/stocker/app.py:277-304 | the sell path keeps the accounting invariant, so no zero-quantity row is ever left |
| Engine.StepPreservesInv | stocker_project_aws/stocker/app.py:222-321 | every order at positive prices keeps the accounting invariant |
| Engine.RunPreservesInv | stocker_project_aws/stocker/app.py:222-321 | every run of orders at positive prices keeps the accounting invariant |
| Engine.TwoBuysAverage | stocker_project_aws/stocker/app.py:263-275 | buying q1 at p1 into an empty row and then q2 at p2 leaves q1 + q2 shares at average (q1·p1 + q2·p2)/(q1 + q2) |
| Engine.AaplScenario | stocker_project_aws/stocker/app.py:235-304 | with 10000 in cash, buying 10 AAPL at 185.50 and 5 at 190.00 leaves 7195.00 and 15 shares at 187.00; selling all 15 at 200.00 leaves 10195.00, no row and three ledger rows |
| Engine.InsufficientFundsScenario | stocker_project_aws/stocker/app.py:247-249 | a buy the cash does not cover returns `InsufficientBalance` and leaves the tables as they were |
| Engine.BuyVolumeOfExecute | stocker_project_aws/stocker/app.py:378-379 | an executed buy raises the dashboard's volume by exactly its total; no other order moves it |
| Engine.RemoveUser | stocker_project_aws/stocker/app.py:459-465 | after `delete_user(u)` no account, row or trade of `u` remains; the accounts are exactly the old ones less `u` and the rows exactly the old rows of other users, each with its old value, and every other user's history is exactly as it was |
| Engine.RemoveUserPreservesInv | stocker_project_aws/stocker/app.py:459-466 | deleting a user keeps the accounting invariant |
| Ledger.TradesOf | stocker_project_aws/stocker/app.py:352-356 | a user's rows are exactly the ledger rows with that user id, each as many times as the ledger holds it |
| Ledger.WithoutUser | stocker_project_aws/stocker/app.py:463 | the rows left are exactly the ledger rows of other users, each as many times as the ledger holds it |
| Ledger.TradesOfPrefix | stocker_project_aws/stocker/aws_app.py:474-483 | scanning one more ledger row extends the user's rows by that row exactly when it is theirs |
| Ledger.WithoutUserKeepsOthers | stocker_project_aws/stocker/app.py:463 | deleting one user's rows leaves every other user's history exactly as it was, order included |
| Ledger.DashboardVolumeNonNegative | stocker_project_aws/stocker/app.py:379-380 | on any store that keeps the accounting invariant the dashboard's trading volume is never negative |
| Ledger.AppendOne | stocker_project_aws/stocker/app.py:306-310 | appending one row extends a user's history, the buy and sell volumes and the net quantity by that row alone |
| Valuation.CurrentPrice | stocker_project_aws/stocker/app.py:105 | the listed price of a symbol, and 0 for a symbol the table does not list |
| Valuation.HeldSymbols | stocker_project_aws/stocker/app.py:95-99 | a symbol is selected exactly when the user has a row of it with a positive quantity |
| Valuation.UserSymbols | stocker_project_aws/stocker/aws_app.py:155-157 | exactly the symbols of the user's rows, including every positive one |
| Valuation.PriceLine | stocker_project_aws/stocker/app.py:105-118 | the line for a positive row shows its quantity and average, the current price, `quantity * current` and `(current - avg) * quantity` |
| Valuation.GainIsValueLessCost | stocker_project_aws/stocker/app.py:106-107 | the lines' gains and losses add up to their total value less their cost basis |
| Valuation.ValueNonNegative | stocker_project_aws/stocker/app.py:106-108 | with positive prices the portfolio value is never negative |
| Valuation.TotalValueAppend | stocker_project_aws/stocker/app.py:108 | adding a line adds its value to the total |
| Valuation.ExtendPartial | stocker_project_aws/stocker/aws_app.py:162-181 | one loop step over an unvisited row adds its line when its quantity is positive and nothing otherwise |
| Valuation.PartialComplete | stocker_project_aws/stocker/app.py:104-120 | once every row is visited, the lines and the summed value are the valuation |
| LocalApp.SqliteStore.ExecuteTrade | stocker_project_aws/stocker/app.py:222-321 | the committed tables and the outcome are exactly those of `Execute`; the invariant is kept at positive prices |
| LocalApp.SqliteStore.GetUserPortfolio | stocker_project_aws/stocker/app.py:92-120 | returns one line per positive row of the user, each priced as the page prices it, with no symbol twice, and the sum of their values |
| LocalApp.SqliteStore.AdminDashboard | stocker_project_aws/stocker/app.py:376-380 | the number of ledger rows, and the sum of the buy totals (0 when there is none), which is never negative on a store that keeps the invariant |
| LocalApp.SqliteStore.DeleteUser | stocker_project_aws/stocker/app.py:451-472 | leaves exactly `RemoveUser` of the tables, and keeps the invariant |
| AwsApp.DynamoStore.ExecuteTrade | stocker_project_aws/stocker/aws_app.py:300-439 | on tables that satisfy the invariant, the tables written and the outcome are exactly those of `Execute`; the invariant is kept at positive prices |
| AwsApp.DynamoStore.GetUserPortfolio | stocker_project_aws/stocker/aws_app.py:152-183 | skips rows whose quantity is not positive and returns a valuation in the same sense as the SQLite page |
| AwsApp.DynamoStore.History | stocker_project_aws/stocker/aws_app.py:463-492 | the rows are most recent first and are, as a multiset, exactly the user's ledger rows |
| AwsApp.DynamoStore.AdminDashboard | stocker_project_aws/stocker/aws_app.py:505-510 | the number of trade items, and the sum of `total` over the buy items only, which is never negative on a store that keeps the invariant |
| AwsApp.SortByTimestampDesc | stocker_project_aws/stocker/aws_app.py:486 | sorts the array in place into descending timestamp order and keeps its rows as a multiset |
| AwsApp.SiftLeft | stocker_project_aws/stocker/aws_app.py:486 | one insertion step: the sorted prefix grows by one row, the rows after it do not move, and the rows are kept as a multiset |

## Left out

- Flask routing, sessions, flash messages and templates are not modelled; they are HTTP and presentation plumbing. The flash message of a failure becomes an `Outcome` value.
- `signup`, `login` and `hash_password` are authentication through a hash library and are not modelled.
- `init_db`, `init_aws_tables` and the SQLite and DynamoDB connection calls are persistence I/O. The tables are in-memory maps and a sequence.
- `send_trade_notification` is an SNS network call and is not modelled.
- `api_stocks` simulates prices with randomness and float rounding; prices are an input map instead.
- Trade and user ids are not modelled. SQLite assigns them by AUTOINCREMENT. The DynamoDB program builds them from a second-resolution clock reading and a four-digit random number. Two DynamoDB trades in the same second can draw the same `trade_id`, and the unconditional `put_item` then replaces the earlier trade item; the model always appends the row, so it does not capture that loss.
- Timestamps are an integer clock reading passed in. SQLite fills its column with the `CURRENT_TIMESTAMP` default, and the DynamoDB program writes an ISO string. The order of those values and of the readings is assumed to agree.
- Float arithmetic is not modelled: money is an exact `real`, so rounding of balances and average prices is not captured.
- Concurrency and lost updates are not modelled; the program has no locking.
- `suspend_user`, `admin_manage`, `admin_portfolio`, `admin_history` and `static/script.js` are not modelled; they are stubs, plain queries or browser code.
- The `total_users` and `total_cash` figures of `admin_dashboard` are not modelled; they are aggregates over the users table and its roles, not over the engine.
- The symbol names shown on the portfolio page come from the price table's `name` field and are not modelled.
- The SQLite `history` query is not modelled as a method; its ordering is the same `ORDER BY timestamp DESC` the DynamoDB `History` proves for its sort.
- DynamoDB `scan` and `query` results are taken to be complete. The program reads only the first page of each response and never follows `LastEvaluatedKey`, so on a large table its portfolio page, history and dashboard figures cover only part of the items; the model does not capture that.
- The DynamoDB `get_user_portfolio` and `history` error paths, which return empty results when the query raises, are not modelled.
- AwsApp.DynamoStore.ExecuteTrade: only the success and validation paths are modelled, and it requires the invariant. So the swallowed portfolio error of a buy is not captured: the debited balance and the ledger row without the position update, as happens after a division by a zero share count. A failure between two writes, which the program does not undo, is not captured either.
- AwsApp.SortByTimestampDesc: does not state stability; Python's sort keeps equal timestamps in query order, and the model says nothing about the order among equal timestamps.
