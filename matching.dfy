/**
 * One matching pass of src/matching/matchingEngine.ts as a function of
 * values: an incoming order walks the opposite queue of its symbol from
 * the best resting order on, trading at the resting order's price while
 * the prices cross and it has quantity left.
 */
module Matching {
  import opened Orders

  /** A fill between a BUY leg and a SELL leg, as `executeTrade` receives it. */
  datatype Trade = Trade(buyOrder: Order, sellOrder: Order, quantity: int, price: real)

  /**
   * What a pass produces: the trades in execution order, the opposite
   * queue it leaves behind, and the incoming order's remaining quantity.
   */
  datatype MatchResult = MatchResult(trades: seq<Trade>, rest: seq<Order>, remaining: int)

  /** `Math.min` */
  function Min(a: int, b: int): int { if a <= b then a else b }

  /**
   * The incoming order may trade with the resting one: a BUY stops when its
   * price is below the best ask, a SELL when its price is above the best bid.
   */
  predicate Crosses(incoming: Order, resting: Order)
  {
    if incoming.side == Buy then incoming.price >= resting.price else incoming.price <= resting.price
  }

  /** The trade `executeTrade` is called with; the price is always the resting order's. */
  function TradeAgainst(incoming: Order, resting: Order, quantity: int): Trade
  {
    if incoming.side == Buy then Trade(incoming, resting, quantity, resting.price)
    else Trade(resting, incoming, quantity, resting.price)
  }

  /** The resting (maker) leg of a trade made by `incoming`. */
  function RestingLeg(incoming: Order, t: Trade): Order
  {
    if incoming.side == Buy then t.sellOrder else t.buyOrder
  }

  /** The incoming (taker) leg of a trade made by `incoming`. */
  function IncomingLeg(incoming: Order, t: Trade): Order
  {
    if incoming.side == Buy then t.buyOrder else t.sellOrder
  }

  /**
   * The loop of `matchBuyOrder` / `matchSellOrder` over the opposite queue
   * `q`: trade `min(remaining, head.quantity)` with the head, lower the
   * head by that much, drop it when it reaches 0, and go on.
   */
  function Match(incoming: Order, remaining: int, q: seq<Order>): MatchResult
    decreases |q|, remaining
  {
    if q == [] || remaining <= 0 || !Crosses(incoming, q[0]) then
      MatchResult([], q, remaining)
    else
      var t := Min(remaining, q[0].quantity);
      var r := Match(incoming, remaining - t, AfterTrade(q, t));
      MatchResult([TradeAgainst(incoming, q[0], t)] + r.trades, r.rest, r.remaining)
  }

  /** The head lowered by `t` (`best.quantity -= t`); the rest of the queue as it was. */
  function Lowered(q: seq<Order>, t: int): seq<Order>
    requires q != []
  {
    [q[0].(quantity := q[0].quantity - t)] + q[1..]
  }

  /** The queue after the head traded `t`: lowered, and dropped once it reaches 0. */
  function AfterTrade(q: seq<Order>, t: int): seq<Order>
    requires q != []
  {
    if q[0].quantity - t == 0 then q[1..] else Lowered(q, t)
  }

  /**
   * One turn of the loop: if the whole pass is the trades made so far
   * followed by the pass from here, it is also those trades, this turn's
   * trade, and the pass over the queue the turn leaves.
   */
  lemma MatchTurn(incoming: Order, full: MatchResult, done: seq<Trade>, remaining: int, q: seq<Order>,
                  trade: Trade, done': seq<Trade>, remaining': int, next: seq<Order>)
    requires q != [] && remaining > 0 && Crosses(incoming, q[0])
    requires full == Resumed(done, Match(incoming, remaining, q))
    requires trade == TradeAgainst(incoming, q[0], Min(remaining, q[0].quantity))
    requires done' == done + [trade]
    requires remaining' == remaining - trade.quantity
    requires next == AfterTrade(q, trade.quantity)
    ensures full == Resumed(done', Match(incoming, remaining', next))
  {
    var t := Min(remaining, q[0].quantity);
    assert trade.quantity == t;
    var r := Match(incoming, remaining', next);
    assert Match(incoming, remaining, q) == MatchResult([trade] + r.trades, r.rest, r.remaining);
    assert done + ([trade] + r.trades) == done' + r.trades;
  }

  /** A pass that cannot trade any more adds nothing to the trades made so far. */
  lemma MatchStopped(incoming: Order, full: MatchResult, done: seq<Trade>, remaining: int, q: seq<Order>)
    requires q == [] || remaining <= 0 || !Crosses(incoming, q[0])
    requires full == Resumed(done, Match(incoming, remaining, q))
    ensures full == MatchResult(done, q, remaining)
  {
    assert done + [] == done;
  }

  /** A pass resumed after the trades `done` were already made. */
  function Resumed(done: seq<Trade>, r: MatchResult): MatchResult
  {
    MatchResult(done + r.trades, r.rest, r.remaining)
  }

  /** The sum of the trade quantities. */
  function Total(trades: seq<Trade>): int
  {
    if trades == [] then 0 else trades[0].quantity + Total(trades[1..])
  }

  ghost predicate Positive(q: seq<Order>)
  {
    forall i :: 0 <= i < |q| ==> q[i].quantity > 0
  }

  /**
   * The incoming order as it stands after the pass: a remainder is
   * written back into it (`order.quantity = remainingQuantity`); a fully
   * filled order keeps the quantity it came with.
   */
  function Remainder(incoming: Order, remaining: int): (o: Order)
    ensures o.id == incoming.id && o.side == incoming.side && o.symbol == incoming.symbol
    ensures o.price == incoming.price && o.createdAt == incoming.createdAt
    ensures remaining > 0 ==> o.quantity == remaining
    ensures remaining <= 0 ==> o == incoming
  {
    if remaining > 0 then incoming.(quantity := remaining) else incoming
  }

  /** `quantity === 0 ? 'FILLED' : 'PARTIALLY_FILLED'` */
  function LegStatus(quantity: int): Status
  {
    if quantity == 0 then Filled else PartiallyFilled
  }

  lemma TotalCons(t: Trade, ts: seq<Trade>)
    ensures Total([t] + ts) == t.quantity + Total(ts)
  {
    assert ([t] + ts)[1..] == ts;
  }

  /**
   * Conservation: against a queue of positive quantities, what the
   * incoming order loses is exactly the sum of its trades, every trade is
   * for a positive quantity, the remainder never goes negative, and the
   * queue left behind still holds positive quantities only.
   */
  lemma {:induction false} MatchConserves(incoming: Order, remaining: int, q: seq<Order>)
    requires Positive(q)
    ensures var r := Match(incoming, remaining, q);
      && r.remaining == remaining - Total(r.trades)
      && (remaining > 0 ==> 0 <= r.remaining)
      && (remaining <= 0 ==> r == MatchResult([], q, remaining))
      && (forall i :: 0 <= i < |r.trades| ==> r.trades[i].quantity > 0)
      && Positive(r.rest)
    decreases |q|, remaining
  {
    if q == [] || remaining <= 0 || !Crosses(incoming, q[0]) {
    } else {
      var t := Min(remaining, q[0].quantity);
      var next := AfterTrade(q, t);
      assert Positive(next);
      MatchConserves(incoming, remaining - t, next);
      TotalCons(TradeAgainst(incoming, q[0], t), Match(incoming, remaining - t, next).trades);
    }
  }

  /**
   * Pricing: every trade is at its resting order's price, its incoming leg
   * is the incoming order, and the price lies between the two limits, so
   * the buyer never pays more than it bid and the seller never gets less
   * than it asked.
   */
  lemma {:induction false} MatchPrices(incoming: Order, remaining: int, q: seq<Order>)
    ensures var r := Match(incoming, remaining, q);
      forall t :: t in r.trades ==>
        && t.price == RestingLeg(incoming, t).price
        && IncomingLeg(incoming, t) == incoming
        && t.sellOrder.price <= t.price <= t.buyOrder.price
    decreases |q|, remaining
  {
    if q == [] || remaining <= 0 || !Crosses(incoming, q[0]) {
    } else {
      var t := Min(remaining, q[0].quantity);
      MatchPrices(incoming, remaining - t, AfterTrade(q, t));
    }
  }

  /**
   * The pass stops only when the incoming order is used up, the queue is
   * empty, or the best resting order no longer crosses it.
   */
  lemma {:induction false} MatchStops(incoming: Order, remaining: int, q: seq<Order>)
    ensures var r := Match(incoming, remaining, q);
      r.remaining <= 0 || r.rest == [] || !Crosses(incoming, r.rest[0])
    decreases |q|, remaining
  {
    if q == [] || remaining <= 0 || !Crosses(incoming, q[0]) {
    } else {
      var t := Min(remaining, q[0].quantity);
      MatchStops(incoming, remaining - t, AfterTrade(q, t));
    }
  }

  /**
   * Priority, as a relation between a queue and a pass over it: trade `i`
   * is against the `i`-th resting order of the queue as it stood before
   * the pass; the first `n` orders are consumed whole and dropped, and at
   * most one more is partly filled, which ends the pass and stays at the
   * head with its quantity lowered.
   */
  ghost predicate InQueueOrder(incoming: Order, q: seq<Order>, r: MatchResult)
  {
    var n := |q| - |r.rest|;
    && 0 <= n <= |r.trades| <= n + 1
    && |r.trades| <= |q|
    && (forall i :: 0 <= i < |r.trades| ==> RestingLeg(incoming, r.trades[i]) == q[i])
    && (forall i :: 0 <= i < n ==> r.trades[i].quantity == q[i].quantity)
    && (|r.trades| == n ==> r.rest == q[n..])
    && (|r.trades| == n + 1 ==>
          && r.remaining == 0
          && 0 < r.trades[n].quantity < q[n].quantity
          && r.rest == [q[n].(quantity := q[n].quantity - r.trades[n].quantity)] + q[n + 1..])
  }

  /** Consuming the head whole and then running the pass on the tail keeps queue order. */
  lemma ConsumedHead(incoming: Order, q: seq<Order>, head: Trade, r: MatchResult)
    requires q != [] && InQueueOrder(incoming, q[1..], r)
    requires RestingLeg(incoming, head) == q[0] && head.quantity == q[0].quantity
    ensures InQueueOrder(incoming, q, MatchResult([head] + r.trades, r.rest, r.remaining))
  {
    var r2 := MatchResult([head] + r.trades, r.rest, r.remaining);
    var n := |q| - 1 - |r.rest|;
    forall i | 0 <= i < |r2.trades|
      ensures RestingLeg(incoming, r2.trades[i]) == q[i]
    {
      if i > 0 {
        assert r2.trades[i] == r.trades[i - 1];
      }
    }
    forall i | 0 <= i < n + 1
      ensures r2.trades[i].quantity == q[i].quantity
    {
      if i > 0 {
        assert r2.trades[i] == r.trades[i - 1];
      }
    }
    assert q[n + 1..] == q[1..][n..];
    if |r.trades| == n + 1 {
      assert r2.trades[n + 1] == r.trades[n];
      assert q[n + 1 + 1..] == q[1..][n + 1..];
    }
  }

  lemma {:induction false} MatchInQueueOrder(incoming: Order, remaining: int, q: seq<Order>)
    requires Positive(q)
    ensures InQueueOrder(incoming, q, Match(incoming, remaining, q))
    decreases |q|, remaining
  {
    if q == [] || remaining <= 0 || !Crosses(incoming, q[0]) {
    } else {
      var t := Min(remaining, q[0].quantity);
      if q[0].quantity - t == 0 {
        assert Positive(q[1..]);
        MatchInQueueOrder(incoming, remaining - t, q[1..]);
        ConsumedHead(incoming, q, TradeAgainst(incoming, q[0], t), Match(incoming, remaining - t, q[1..]));
      } else {
        var next := Lowered(q, t);
        assert Match(incoming, remaining - t, next) == MatchResult([], next, 0);
      }
    }
  }

  /**
   * The incoming leg's status at settlement is never FILLED: a remainder
   * writes a positive quantity back into the order, and a fully filled
   * order keeps its original, positive quantity.
   */
  lemma IncomingNeverFilled(incoming: Order, q: seq<Order>)
    requires incoming.quantity > 0 && Positive(q)
    ensures var r := Match(incoming, incoming.quantity, q);
      LegStatus(Remainder(incoming, r.remaining).quantity) == PartiallyFilled
  {
  }

  // ---------------------------------------------------------------------
  // The passes of the engine's tests
  // ---------------------------------------------------------------------

  function Limit(id: int, userId: string, side: Side, quantity: int, createdAt: int): Order
  {
    Order(id, userId, "AAPL", side, quantity, 150.0, Pending, createdAt)
  }

  /**
   * BUY 10 at 150 against a resting SELL 10 at 150: one trade of 10 at
   * 150, nothing left on either side, the resting leg FILLED and the
   * incoming leg, still carrying quantity 10, PARTIALLY_FILLED.
   */
  lemma ExactFill()
    ensures var buy := Limit(1, "buyer", Buy, 10, 0);
      var sell := Limit(2, "seller", Sell, 10, 0);
      var r := Match(buy, buy.quantity, [sell]);
      && r == MatchResult([Trade(buy, sell, 10, 150.0)], [], 0)
      && LegStatus(RestingLeg(buy, r.trades[0]).quantity - r.trades[0].quantity) == Filled
      && LegStatus(Remainder(buy, r.remaining).quantity) == PartiallyFilled
  {
  }

  /** BUY 15 at 150 against SELL 10 at 150: one trade of 10 at 150 and a remainder of 5. */
  lemma PartialFill()
    ensures var buy := Limit(3, "buyer", Buy, 15, 0);
      var sell := Limit(4, "seller", Sell, 10, 0);
      var r := Match(buy, buy.quantity, [sell]);
      && r == MatchResult([Trade(buy, sell, 10, 150.0)], [], 5)
      && Remainder(buy, r.remaining).quantity == 5
  {
  }

  /** SELL 15 at 150 against a resting BUY 10 at 150: the mirror image. */
  lemma PartialFillSell()
    ensures var sell := Limit(10, "seller", Sell, 15, 0);
      var buy := Limit(11, "buyer", Buy, 10, 0);
      var r := Match(sell, sell.quantity, [buy]);
      && r == MatchResult([Trade(buy, sell, 10, 150.0)], [], 5)
      && Remainder(sell, r.remaining).quantity == 5
  {
  }

  /** A BUY below the best ask does not trade and leaves the queue as it was. */
  lemma NoCrossNoTrade(incoming: Order, q: seq<Order>)
    requires q != [] && !Crosses(incoming, q[0])
    ensures Match(incoming, incoming.quantity, q) == MatchResult([], q, incoming.quantity)
  {
  }
}
