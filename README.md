# Order book, matching engine and settlement stores

A Dafny model of the trading core of a paper-trading backend. It has
three parts:

- **The in-memory order book** (`src/matching/orderBook.ts`). Each side
  (BUY, SELL) maps a symbol to a queue of resting limit orders. BUY
  queues are sorted by price descending, then `createdAt` ascending.
  SELL queues are sorted by price ascending, then `createdAt` ascending.
  An insert pushes the order and re-sorts with a stable sort. A removal
  by id splices out the first match, scanning every BUY queue before any
  SELL queue.
- **The matching engine** (`src/matching/matchingEngine.ts`). An incoming
  order walks the opposite queue of its symbol from the head while the
  prices cross. Each step trades `min(remaining, resting quantity)` at
  the resting order's price. It lowers the resting order in place and
  removes it once it reaches 0. Any remainder goes back on the incoming
  order's own side. Each trade is settled by `executeTrade`: a buyer
  balance check, balance writes, holding upserts, order-status writes,
  and removal of legs whose quantity is 0.
- **The stores settlement touches**, as in-memory maps standing in for
  the SQL tables:
  - accounts (`src/services/userService.ts`), an id mapped to a balance;
  - holdings (`src/services/portfolioService.ts`), a (userId, symbol)
    pair mapped to a quantity and a weighted-average price;
  - orders (`src/services/orderService.ts`), an order id mapped to an
    order row.

## Layout

- **`orders.dfy`**: the `Order` value (the source's `type` field is
  `side`), its status and side enumerations, `Option`, and the
  pass/fail `Outcome`.
- **`order_book.dfy`**, module `Book`:
  - the comparator, sortedness, and stable sort as insertion sort;
  - one side of the book as a `BookSide`. Its `symbols` list keeps the
    JavaScript `Map` key order that `removeOrder`'s `for ... of` visits;
  - the class `OrderBook`, whose methods update the two sides in place.
- **`matching.dfy`**, module `Matching`: one matching pass as a function
  of values (`Match`), with lemmas for conservation, pricing, the
  stopping rule and queue order.
- **`matching_engine.dfy`**, module `Engine`:
  - the class `MatchingEngine`, which owns an `OrderBook`. Its loops are
    proved to compute `Match` and to leave the book as `Match` says;
  - the settlement `ExecuteTrade` over the three stores;
  - the book invariants the engine keeps (`Resting`): every side well
    formed, sorted and filed by symbol; ids unique across the book; all
    resting quantities positive.
- **`user_service.dfy`**, **`portfolio_service.dfy`**,
  **`order_service.dfy`**: the stores, each a class holding a map.

## Behaviour as written

The model follows the code where its comments, its tests or the obvious
intent say otherwise:

- **The seller's credit reads the buyer's balance.** At
  `src/matching/matchingEngine.ts:101` the seller's new balance is the
  balance read from the BUYER's row plus the cost. `Engine.BalancesAfter`
  models this as written. `Engine.SellerTakesBuyersBalance` proves that,
  between two distinct accounts, the seller ends with the buyer's
  pre-trade balance whatever they held before. `Engine.SellerCreditExample`
  works one case through: buyer 2000, seller 300, 10 at 150 leaves the
  seller with 2000 rather than 1800. The engine test at
  `tests/matchingEngine.spec.ts:304` expects `2000 + cost` for the seller
  only because its mock returns the balance 2000 for every account.
- **A sale to the simulator overwrites the seller's balance.** The
  market simulator trades as `SIMULATED_TRADER`, which has no account
  row. When its BUY fills a user's SELL, the balance read at line 101 is
  that of a missing row, so the seller's balance is set to the cost
  alone, whatever they held (`Engine.SimulatorBuyerSetsSellerToCost`). A
  user's BUY against the simulator's SELL only debits the buyer
  (`Engine.SimulatorSellerDebitsBuyer`).
- **The incoming leg is never FILLED.** `executeTrade` derives each leg's
  status from the quantity the order object carries. The incoming order
  keeps its submitted quantity when it is filled, and carries its
  positive remainder otherwise. So its leg is always PARTIALLY_FILLED
  (`Matching.IncomingNeverFilled`, `Matching.ExactFill`). The engine tests
  expect FILLED for the incoming leg at `tests/matchingEngine.spec.ts:60`,
  `:201` and `:309`.
- **A failed settlement does not undo the book.** The settlement promise
  is neither awaited nor inspected. An unfunded buyer therefore aborts
  only the store writes. The book has already been decremented and
  spliced by the loop, and `MatchOrder`'s contract does not mention
  balances.
- **Cancelling does not touch the book.** `cancelOrder` only changes the
  row's status. Nothing is removed from the in-memory book, although
  `tests/orderService.spec.ts:114` expects a removal.

## Model

| member | source | states |
|---|---|---|
| Book.Compare | src/matching/orderBook.ts:18-22 | The comparator lets `a` precede `b` exactly when `a` has the better price for the side (higher for BUY, lower for SELL), or the same price and a `createdAt` no later than `b`'s. |
| Book.InsertionPoint | src/matching/orderBook.ts:16-22 | The new order's slot: every order before it precedes it, the order at it does not, and in a sorted queue no later order does. |
| Book.Insert | src/matching/orderBook.ts:16-22 | Sorted insertion adds exactly the new order (multiset plus one) and keeps a sorted queue sorted. |
| Book.StableSort | src/matching/orderBook.ts:19-21 | `Array.prototype.sort` with the comparator returns a permutation of its input that is sorted in price-time priority. |
| Book.SortOfSorted | src/matching/orderBook.ts:19-21 | Re-sorting an already sorted queue leaves it unchanged. |
| Book.PushSortIsInsert | src/matching/orderBook.ts:16-22 | Push-then-sort on a sorted queue keeps the old orders' relative order. The new order lands after every order that ties with it on price and `createdAt`. |
| Book.InsertAfterAll | src/matching/orderBook.ts:16-22 | An order that every queued order precedes is appended at the back. |
| Book.Placed | src/matching/orderBook.ts:8-22 | `addOrder` on one side creates the symbol's queue if missing, appending the symbol to the key order, and adds exactly the order to it. Ids gain the order's id, other symbols' queues are unchanged, and sortedness and well-formedness are kept. |
| Book.PlacedKeepsInvariants | src/matching/orderBook.ts:8-22 | After `addOrder` every queue of the side still holds only its own symbol and side and is still sorted. |
| Book.IndexOf | src/matching/orderBook.ts:29 | `findIndex` returns -1 exactly when the id is absent, otherwise the first index holding it. |
| Book.FindIndex | src/matching/orderBook.ts:29 | The `findIndex` scan returns `IndexOf`. |
| Book.FindFrom | src/matching/orderBook.ts:28-35 | The side scan finds the first symbol, in key insertion order, whose queue holds the id, and the first index in it. It finds nothing exactly when no queue holds the id. |
| Book.FindInSide | src/matching/orderBook.ts:28-35 | The `for ... of` loop over a side returns `FindFrom` from the first key. |
| Book.RemoveAt | src/matching/orderBook.ts:31 | `splice(i, 1)` removes exactly that one order (multiset minus one), adds no id, and keeps a sorted queue sorted. |
| Book.Without | src/matching/orderBook.ts:31 | Splicing in one queue changes that queue only; the side's keys and every other queue stay. |
| Book.WithoutKeepsInvariants | src/matching/orderBook.ts:37-44 | After a splice every queue of the side is still filed by symbol and side, and still sorted. |
| Book.RemoveById | src/matching/orderBook.ts:27-48 | `removeOrder` reports true exactly when the id rests on either side. With no match nothing changes. A match on the BUY side leaves the SELL side unchanged; otherwise the BUY side is unchanged. Both sides stay well formed. |
| Book.RemoveByIdSplicesFirst | src/matching/orderBook.ts:27-48 | If a BUY queue holds the id, the first such queue in key order loses exactly the order at the id's first index. The key order and every other queue are unchanged, and so is the SELL side. Otherwise, if a SELL queue holds it, the same happens on the SELL side and BUY is unchanged. |
| Book.AbsentWhenNotFound | src/matching/orderBook.ts:28-44 | The scan of a side finds nothing exactly when the id is in none of its queues. |
| Book.FoundInOnlyQueue | src/matching/orderBook.ts:28-35 | When only one queue holds the id, the scan stops at that queue, at the id's first index. |
| Book.PlacedIsFound | src/matching/orderBook.ts:8-35 | After adding an order with a fresh id, the scan finds that id in the order's own queue. |
| Book.PlaceThenSplice | src/matching/orderBook.ts:8-48 | Adding an order with a fresh id, then splicing that id out, restores every queue of the side. |
| Book.InsertThenRemove | src/matching/orderBook.ts:8-48 | `addOrder` then `removeOrder` of a fresh id returns true. It restores every queue on both sides and leaves the order's own side exactly as it was when the symbol already had a queue. |
| Book.OrderBook.constructor | src/matching/orderBook.ts:4-6 | A new book has two empty sides and satisfies the invariant. |
| Book.PlaceOnSide | src/matching/orderBook.ts:9-21 | The steps of `addOrder` on a sorted side: create the queue if missing, push, then sort. The result is exactly `Placed(side, order)`. |
| Book.OrderBook.AddOrder | src/matching/orderBook.ts:8-25 | The order's own side becomes `Placed(old side, order)`, the other side is unchanged, and sortedness and filing are kept. |
| Book.OrderBook.RemoveOrder | src/matching/orderBook.ts:27-48 | The result and both new sides are those of `RemoveById` on the old sides; the invariant is kept. |
| Book.OrderBook.GetBuyOrders | src/matching/orderBook.ts:58-60 | Returns the stored BUY queue of the symbol, sorted and holding only BUY orders of that symbol, or the empty queue for an unknown symbol. |
| Book.OrderBook.GetSellOrders | src/matching/orderBook.ts:62-64 | Returns the stored SELL queue of the symbol, sorted and holding only SELL orders of that symbol, or the empty queue for an unknown symbol. |
| Book.OrderBook.GetBestBuy | src/matching/orderBook.ts:50-52 | None exactly when the symbol has no BUY order. Otherwise the queue's head, which has the highest price and the earliest `createdAt` among equal prices. |
| Book.OrderBook.GetBestSell | src/matching/orderBook.ts:54-56 | None exactly when the symbol has no SELL order. Otherwise the queue's head, which has the lowest price and the earliest `createdAt` among equal prices. |
| Matching.MatchConserves | src/matching/matchingEngine.ts:53-74 | Against positive resting quantities, the submitted quantity minus what remains is the sum of the trade quantities. Every trade is positive, the remainder is never negative, and the queue left behind holds positive quantities only. |
| Matching.MatchPrices | src/matching/matchingEngine.ts:59-66 | Every trade executes at the resting order's price with the incoming order as its other leg, so the buyer never pays above its limit and the seller never receives below its limit. |
| Matching.MatchStops | src/matching/matchingEngine.ts:56-61 | A pass ends only when the incoming order is used up, the opposite queue is empty, or its head no longer crosses. |
| Matching.MatchInQueueOrder | src/matching/matchingEngine.ts:56-73 | Trade `i` is against the `i`-th order of the queue. The orders traded in full are exactly the ones dropped from the front. At most one more is partly filled; it ends the pass and stays at the head, lowered by its trade. |
| Matching.MatchTurn | src/matching/matchingEngine.ts:63-73 | One crossing turn appends this turn's trade and continues the pass over the lowered or shortened queue, so the loop's trades stay a prefix of the whole pass. |
| Matching.MatchStopped | src/matching/matchingEngine.ts:56-61 | When the loop exits, the trades made so far are the whole pass. |
| Matching.Remainder | src/matching/matchingEngine.ts:76-78 | A positive remainder is written into the incoming order's quantity. A filled order keeps its submitted quantity, and nothing else about the order changes. |
| Matching.IncomingNeverFilled | src/matching/matchingEngine.ts:114-115 | The incoming leg's status at settlement is PARTIALLY_FILLED, never FILLED. |
| Matching.NoCrossNoTrade | src/matching/matchingEngine.ts:59-61 | When the best resting order does not cross, the pass makes no trade and leaves the queue as it was. |
| Matching.ExactFill | tests/matchingEngine.spec.ts:25-62 | BUY 10 at 150 against SELL 10 at 150 makes one trade of 10 at 150 and leaves nothing. The resting leg, lowered by its trade to 0, is FILLED; the incoming leg is PARTIALLY_FILLED. |
| Matching.PartialFill | tests/matchingEngine.spec.ts:64-104 | BUY 15 at 150 against SELL 10 at 150 makes one trade of 10 and leaves the BUY with 5. |
| Matching.PartialFillSell | tests/matchingEngine.spec.ts:204-244 | SELL 15 at 150 against BUY 10 at 150 makes one trade of 10 and leaves the SELL with 5. |
| Engine.PlacedKeepsResting | src/matching/matchingEngine.ts:76-78 | Adding an order with a fresh id and positive quantity keeps the whole-book invariant. |
| Engine.RemovalKeepsResting | src/matching/matchingEngine.ts:120-128 | `removeOrder` of any id keeps the whole-book invariant. |
| Engine.SellFilled | src/matching/matchingEngine.ts:69-72 | A best SELL lowered to 0 is found by `removeOrder`, which returns true and leaves the SELL queue without its head, the BUY side unchanged, and the invariant kept. |
| Engine.SellPartlyFilled | src/matching/matchingEngine.ts:69 | A best SELL lowered but not to 0 stays at the head with its quantity reduced, keeping the invariant. |
| Engine.BuyFilled | src/matching/matchingEngine.ts:38-41 | A best BUY lowered to 0 is found by `removeOrder`, which returns true and leaves the BUY queue without its head, the SELL side unchanged, and the invariant kept. |
| Engine.BuyPartlyFilled | src/matching/matchingEngine.ts:38 | A best BUY lowered but not to 0 stays at the head with its quantity reduced, keeping the invariant. |
| Engine.Decremented | src/matching/matchingEngine.ts:38 | `best.quantity -= t` lowers the head of the symbol's queue only. |
| Engine.BalancesAfter | src/matching/matchingEngine.ts:89-105 | A real buyer (distinct from the seller) is debited the cost. A real seller's balance becomes the cost plus the balance read through the buyer's id after the debit: the simulator's missing row reads as 0. Every other account and the key set are unchanged; two simulator legs change nothing. |
| Engine.HoldingsAfter | src/matching/matchingEngine.ts:107-112 | A real buyer's row for the symbol is upserted with +quantity at the execution price, a real seller's with -quantity at that price (both on one row for a self-trade, which keeps its quantity). The keys gain exactly those rows, and every other row is unchanged. |
| Engine.StatusesAfter | src/matching/matchingEngine.ts:114-118 | Each leg's row becomes FILLED when its quantity is 0 and PARTIALLY_FILLED otherwise; no other row changes. |
| Engine.Cleared | src/matching/matchingEngine.ts:120-128 | Each leg whose quantity is 0 is removed by id (`RemoveById`), the BUY leg first; non-zero legs are not. A zero leg already gone from the book is not found again and the book stays as it was. |
| Engine.SellerTakesBuyersBalance | src/matching/matchingEngine.ts:100-103 | Between two distinct real accounts, the buyer loses the cost and the seller ends with the buyer's balance from before the trade. |
| Engine.SellerCreditExample | src/matching/matchingEngine.ts:100-103 | Buyer 2000, seller 300, 10 at 150: balances become 500 and 2000. |
| Engine.SimulatorBuyerSetsSellerToCost | src/matching/matchingEngine.ts:100-103 | Against the simulator's BUY, which has no account row, a real seller's balance is set to the cost alone and nothing else changes. |
| Engine.SimulatorSellerDebitsBuyer | src/matching/matchingEngine.ts:89-98 | Against the simulator's SELL, a real buyer is debited the cost and nothing else changes. |
| Engine.SelfTradeKeepsBalance | src/matching/matchingEngine.ts:89-105 | A trade between one real account's own orders leaves its balance unchanged. |
| Engine.HoldingsMove | src/matching/matchingEngine.ts:107-112 | Between two distinct real accounts, the buyer's holding grows by the traded quantity and the seller's shrinks by it. |
| Engine.MatchingEngine.constructor | src/matching/matchingEngine.ts:9-11 | A new engine owns an empty book that satisfies the invariant. |
| Engine.MatchingEngine.MatchOrder | src/matching/matchingEngine.ts:13-19 | Dispatches on side. The trades are the pass `Match` over the opposite queue, which is left as the pass leaves it. A remainder is placed on the order's own side, and the invariant is kept. |
| Engine.MatchingEngine.MatchBuyOrder | src/matching/matchingEngine.ts:52-81 | The loop's trades are `Match` over the SELL queue. The SELL queue becomes the pass's rest, and the BUY side gains the remainder, if any. |
| Engine.MatchingEngine.MatchSellOrder | src/matching/matchingEngine.ts:21-50 | The loop's trades are `Match` over the BUY queue. The BUY queue becomes the pass's rest, and the SELL side gains the remainder, if any. |
| Engine.MatchingEngine.TradeWithSell | src/matching/matchingEngine.ts:63-73 | One crossing turn against the best SELL keeps the loop invariant: the trades remain a prefix of the pass, and the queue shrinks or the remainder drops. |
| Engine.MatchingEngine.TradeWithBuy | src/matching/matchingEngine.ts:32-42 | One crossing turn against the best BUY keeps the loop invariant: the trades remain a prefix of the pass, and the queue shrinks or the remainder drops. |
| Engine.MatchingEngine.PlaceRemainder | src/matching/matchingEngine.ts:76-80 | A positive remainder is written into the order, which is placed on its own side; a filled order changes nothing in the book. |
| Engine.SellLowered | src/matching/matchingEngine.ts:69-73 | Lowering the best SELL by a trade of at most its quantity keeps the whole-book invariant. When it reaches 0, the `removeOrder` that follows finds it and leaves the queue as `AfterTrade`. Otherwise the decremented side is already that queue. |
| Engine.BuyLowered | src/matching/matchingEngine.ts:38-42 | The same for the best BUY. |
| Engine.MatchingEngine.LowerSell | src/matching/matchingEngine.ts:69-73 | The best SELL is lowered by the trade and dropped at 0. The queue becomes `AfterTrade` of the old queue, and nothing else in the book changes. |
| Engine.MatchingEngine.LowerBuy | src/matching/matchingEngine.ts:38-42 | The best BUY is lowered by the trade and dropped at 0. The queue becomes `AfterTrade` of the old queue, and nothing else in the book changes. |
| Engine.MatchingEngine.ExecuteTrade | src/matching/matchingEngine.ts:84-129 | Settles exactly when the buyer is the simulator or can pay. Otherwise no store and no book changes. When it settles: balances, holdings, statuses and the book become `BalancesAfter`, `HoldingsAfter`, `StatusesAfter` and `Cleared`. |
| Engine.MatchingEngine.ClearLegs | src/matching/matchingEngine.ts:120-128 | Removes each zero-quantity leg by id, BUY leg first, and keeps the invariant. |
| Engine.SettleBalances | src/matching/matchingEngine.ts:87-105 | Returns the buyer check's outcome. An unfunded buyer aborts with nothing written; otherwise the balances become `BalancesAfter`. |
| Engine.SettleHoldings | src/matching/matchingEngine.ts:107-112 | The holdings become `HoldingsAfter`, skipping the simulator on either side. |
| Engine.SettleStatuses | src/matching/matchingEngine.ts:114-118 | The order rows become `StatusesAfter`. |
| UserService.BalanceOf | src/matching/matchingEngine.ts:90-91 | An unknown account reads as balance 0, and a known one as its stored balance. |
| UserService.Written | src/services/userService.ts:38-40 | The absolute write changes that account only; an unknown id matches no row and changes nothing. |
| UserService.UserStore.constructor | src/services/userService.ts:4 | A new store holds no account. |
| UserService.UserStore.GetUser | src/services/userService.ts:27-34 | None exactly for an unknown id, otherwise the stored balance. |
| UserService.UserStore.CreateUser | src/services/userService.ts:6-25 | Succeeds exactly for a new id, which then holds 100000. An existing id fails with "already exists" and changes nothing. |
| UserService.UserStore.UpdateUserBalance | src/services/userService.ts:36-47 | Writes the new balance for that id only; no other account is affected and an unknown id stays unknown. |
| OrderService.WithStatus | src/matching/matchingEngine.ts:117-118 | A status write changes that row's status only; an unknown id changes nothing. |
| OrderService.OrderStore.constructor | src/services/orderService.ts:6 | A new table holds no row. |
| OrderService.OrderStore.GetPendingOrders | src/services/orderService.ts:8-22 | Exactly the user's rows whose status is PENDING, so PARTIALLY_FILLED rows are excluded. Each of them can be cancelled. |
| OrderService.OrderStore.CancelOrder | src/services/orderService.ts:24-45 | Succeeds exactly when the order exists, belongs to the user and is PENDING; then only its status becomes CANCELED. Otherwise it fails with "no pending order" and changes nothing. Afterwards the order is not cancellable, so a second cancel fails. |
| OrderService.OrderStore.UpdateOrderStatus | tests/orderService.spec.ts:170-196 | Sets the status of that order's row and of no other. |
| PortfolioService.Blend | src/services/portfolioService.ts:39-45 | When the new quantity is positive, new quantity times new price equals old cost plus traded cost, and between non-negative quantities the price lies between the two prices. Otherwise the old price is kept. |
| PortfolioService.Upserted | src/services/portfolioService.ts:35-46 | An absent key is inserted with the given quantity and price, a negative quantity included. An existing key gets the quantity added and the price blended. No row is deleted and no other key changes. |
| PortfolioService.Reduced | src/services/portfolioService.ts:86-120 | The row loses the quantity. It is deleted when the result is 0 or less and kept, price unchanged, otherwise. An absent key and every other key are unchanged. |
| PortfolioService.PortfolioStore.constructor | src/services/portfolioService.ts:8 | A new store holds no row. |
| PortfolioService.PortfolioStore.GetPortfolio | src/services/portfolioService.ts:10-24 | Exactly that user's rows, with their stored values. |
| PortfolioService.PortfolioStore.UpsertPortfolioEntry | src/services/portfolioService.ts:26-59 | The rows become `Upserted`; every other user's portfolio is unchanged. |
| PortfolioService.PortfolioStore.DeletePortfolioEntry | src/services/portfolioService.ts:61-76 | Removes exactly that (userId, symbol) row; every other user's portfolio is unchanged. |
| PortfolioService.PortfolioStore.ReducePortfolioEntry | src/services/portfolioService.ts:78-129 | Update, read back, delete at 0 or less: the rows become `Reduced`, and every other user's portfolio is unchanged. |
| PortfolioService.TwoBuysAverage | src/services/portfolioService.ts:39-45 | 10 at 100 followed by 10 at 200 leaves 20 at 150. |
| PortfolioService.SellIntoEmptyIsNegative | src/services/portfolioService.ts:35-36 | A sell leg on an absent holding inserts a negative quantity instead of failing. |

## Left out

- **Asynchronous scheduling.** `executeTrade` is started without being
  awaited, so when it reads the legs' quantities depends on the order in
  which promises resume. Settlement is modelled as a separate,
  sequential step, `Engine.MatchingEngine.ExecuteTrade`, run to
  completion. It takes one trade and the two legs' quantities at the
  time of reading as inputs. Interleavings of several settlements with
  each other and with later passes are not modelled.
- **Engine.MatchingEngine.MatchOrder** requires that the incoming order's
  id rests nowhere in the book and that the book's ids are unique.
  Order ids are the orders table's primary key. The code does not check
  this. With a duplicate id, `removeOrder` could splice another order
  and leave a zero-quantity head behind.
- **Object aliasing.** Orders are values. The in-place
  `bestSell.quantity -= tradeQuantity` on an object shared with the
  book's array is modelled as rewriting the head of the symbol's queue.
  `order.quantity = remainingQuantity` is modelled as the returned
  incoming order.
- **Status fields in the book.** The book's order objects keep their
  status (the code writes statuses only to the orders table).
- **`createOrder`** (`src/services/orderService.ts:50-63`) is an empty
  stub and has no behaviour to model.
- **`updateOrderStatus`** is imported by the engine but is not defined in
  `src/services/orderService.ts`. `OrderService.OrderStore.UpdateOrderStatus`
  models it as "set the status of that id", from its call site and its
  tests.
- **`getOrderBook`** (`src/matching/matchingEngine.ts:132-134`) is the
  public `book` field of `Engine.MatchingEngine`.
- **SQL and storage.**
  - Not modelled: database errors and rejections other than the
    duplicate account and the missing pending order; the `createdAt`
    column of accounts; row order in query results.
  - The schema in `src/config/db.ts` names the holdings table and its
    price column differently from the service; the model follows the
    service.
  - Query results are maps, not arrays of rows.
- **Floating point.** Prices, costs and balances are exact `real`
  numbers and quantities are integers; JavaScript and SQLite rounding is
  not modelled. `createdAt` is the integer millisecond timestamp the
  comparator subtracts.
- **Logging**, the order simulator (random orders, timers), the external
  price feed, and the HTTP layer (controllers, routes, cookies) are not
  part of this model.
