/** Queries and aggregates over the trade ledger. Every function here takes
    the ledger apart at its last row, the row that was appended most recently. */
module Ledger {
  import opened Trading

  /** The rows of one user, in ledger order (the query by user id). */
  function TradesOf(ts: seq<Trade>, u: UserId): (r: seq<Trade>)
    ensures |r| <= |ts|
    ensures forall t :: t in r <==> t in ts && t.user == u
    // each of the user's rows as often as the ledger holds it
    ensures forall t :: multiset(r)[t] == if t.user == u then multiset(ts)[t] else 0
    decreases |ts|
  {
    if ts == [] then []
    else
      var rest := TradesOf(ts[..|ts| - 1], u);
      var last := ts[|ts| - 1];
      assert ts == ts[..|ts| - 1] + [last];
      assert multiset(ts) == multiset(ts[..|ts| - 1]) + multiset{last};
      if last.user == u then rest + [last] else rest
  }

  /** The ledger left after `DELETE FROM trades WHERE user_id = u`. */
  function WithoutUser(ts: seq<Trade>, u: UserId): (r: seq<Trade>)
    ensures |r| <= |ts|
    ensures forall t :: t in r <==> t in ts && t.user != u
    // each other user's row as often as the ledger holds it
    ensures forall t :: multiset(r)[t] == if t.user != u then multiset(ts)[t] else 0
    decreases |ts|
  {
    if ts == [] then []
    else
      var rest := WithoutUser(ts[..|ts| - 1], u);
      var last := ts[|ts| - 1];
      assert ts == ts[..|ts| - 1] + [last];
      assert multiset(ts) == multiset(ts[..|ts| - 1]) + multiset{last};
      if last.user != u then rest + [last] else rest
  }

  /** Sum of `total` over the buy rows: the admin dashboard's trading volume. */
  function BuyVolume(ts: seq<Trade>): real
    decreases |ts|
  {
    if ts == [] then 0.0
    else
      var last := ts[|ts| - 1];
      BuyVolume(ts[..|ts| - 1]) + (if IsBuy(last.action) then last.total else 0.0)
  }

  /** Sum of `total` over the rows that took the sell path. */
  function SellVolume(ts: seq<Trade>): real
    decreases |ts|
  {
    if ts == [] then 0.0
    else
      var last := ts[|ts| - 1];
      SellVolume(ts[..|ts| - 1]) + (if IsBuy(last.action) then 0.0 else last.total)
  }

  /** Shares of `s` bought minus shares of `s` sold. */
  function NetQuantity(ts: seq<Trade>, s: Symbol): int
    decreases |ts|
  {
    if ts == [] then 0
    else
      var last := ts[|ts| - 1];
      NetQuantity(ts[..|ts| - 1], s)
        + (if last.symbol != s then 0 else if IsBuy(last.action) then last.quantity else -last.quantity)
  }

  /** Most recent first. */
  predicate SortedByTimestampDesc(ts: seq<Trade>) {
    forall i, j :: 0 <= i < j < |ts| ==> ts[i].timestamp >= ts[j].timestamp
  }

  /** A volume over rows whose totals are non-negative is non-negative. */
  lemma {:induction false} BuyVolumeNonNegative(ts: seq<Trade>)
    requires forall i :: 0 <= i < |ts| ==> ts[i].total >= 0.0
    ensures BuyVolume(ts) >= 0.0
    decreases |ts|
  {
    if ts != [] {
      BuyVolumeNonNegative(ts[..|ts| - 1]);
    }
  }

  /** The admin dashboard's trading volume is never negative on a store that keeps the invariant. */
  lemma DashboardVolumeNonNegative(db: Db)
    requires Inv(db)
    ensures BuyVolume(db.trades) >= 0.0
  {
    forall i | 0 <= i < |db.trades| ensures db.trades[i].total >= 0.0 {
      assert TradeOk(db, db.trades[i]);
      assert db.trades[i].quantity as real * db.trades[i].price > 0.0;
    }
    BuyVolumeNonNegative(db.trades);
  }

  /** Deleting one user's rows leaves every other user's history exactly as it was. */
  lemma {:induction false} WithoutUserKeepsOthers(ts: seq<Trade>, u: UserId, v: UserId)
    requires u != v
    ensures TradesOf(WithoutUser(ts, u), v) == TradesOf(ts, v)
    decreases |ts|
  {
    if ts != [] {
      var init, last := ts[..|ts| - 1], ts[|ts| - 1];
      WithoutUserKeepsOthers(init, u, v);
      var w := WithoutUser(init, u);
      if last.user != u {
        assert WithoutUser(ts, u) == w + [last];
        assert (w + [last])[..|w + [last]| - 1] == w;
      }
    }
  }

  /** One more row of the ledger extends the user's rows by that row if it is theirs. */
  lemma TradesOfPrefix(ts: seq<Trade>, i: int, u: UserId)
    requires 0 <= i < |ts|
    ensures TradesOf(ts[..i + 1], u) == TradesOf(ts[..i], u) + (if ts[i].user == u then [ts[i]] else [])
  {
    assert ts[..i + 1][..i] == ts[..i];
  }

  /** Appending one row to the ledger extends each aggregate by that row alone. */
  lemma AppendOne(ts: seq<Trade>, t: Trade, u: UserId, s: Symbol)
    ensures TradesOf(ts + [t], u) == TradesOf(ts, u) + (if t.user == u then [t] else [])
    ensures BuyVolume(ts + [t]) == BuyVolume(ts) + (if IsBuy(t.action) then t.total else 0.0)
    ensures SellVolume(ts + [t]) == SellVolume(ts) + (if IsBuy(t.action) then 0.0 else t.total)
    ensures NetQuantity(ts + [t], s) == NetQuantity(ts, s)
              + (if t.symbol != s then 0 else if IsBuy(t.action) then t.quantity else -t.quantity)
  {
    assert (ts + [t])[..|ts + [t]| - 1] == ts;
  }
}
