/**
 * The holdings store of src/services/portfolioService.ts: one row per
 * (userId, symbol) with a signed quantity and a weighted-average price.
 */
module PortfolioService {
  import opened Orders

  datatype HoldingKey = HoldingKey(userId: string, symbol: string)

  datatype Holding = Holding(quantity: int, price: real)

  function Least(a: real, b: real): real { if a <= b then a else b }

  function Greatest(a: real, b: real): real { if a <= b then b else a }

  /**
   * The `price = CASE ... END` of the upsert: the quantity-weighted
   * average of the old price and the traded price while the new quantity
   * is positive, else the old price. The new quantity times the new
   * price is the old cost plus the traded cost, and when both quantities
   * are non-negative the average lies between the two prices.
   */
  function Blend(oldQuantity: int, oldPrice: real, quantity: int, price: real): (p: real)
    ensures oldQuantity + quantity > 0 ==>
      p * (oldQuantity + quantity) as real == oldQuantity as real * oldPrice + quantity as real * price
    ensures oldQuantity + quantity <= 0 ==> p == oldPrice
    ensures oldQuantity >= 0 && quantity >= 0 && oldQuantity + quantity > 0 ==>
      Least(oldPrice, price) <= p <= Greatest(oldPrice, price)
  {
    if oldQuantity + quantity > 0 then
      var total := (oldQuantity + quantity) as real;
      var p := (oldQuantity as real * oldPrice + quantity as real * price) / total;
      BlendBetween(oldQuantity as real, oldPrice, quantity as real, price, p);
      p
    else
      oldPrice
  }

  lemma BlendBetween(a: real, x: real, b: real, y: real, p: real)
    requires a + b > 0.0 && p == (a * x + b * y) / (a + b)
    ensures p * (a + b) == a * x + b * y
    ensures a >= 0.0 && b >= 0.0 ==> Least(x, y) <= p <= Greatest(x, y)
  {
    assert p * (a + b) == a * x + b * y;
    if a >= 0.0 && b >= 0.0 {
      var lo, hi := Least(x, y), Greatest(x, y);
      assert a * x + b * y >= a * lo + b * lo by {
        assert a * x >= a * lo;
        assert b * y >= b * lo;
      }
      assert a * x + b * y <= a * hi + b * hi by {
        assert a * x <= a * hi;
        assert b * y <= b * hi;
      }
      assert p * (a + b) >= lo * (a + b);
      assert p * (a + b) <= hi * (a + b);
      CancelPositive(p, lo, a + b);
      CancelPositive(hi, p, a + b);
    }
  }

  lemma CancelPositive(u: real, v: real, c: real)
    requires c > 0.0 && u * c >= v * c
    ensures u >= v
  {
  }

  /**
   * `upsertPortfolioEntry`: an absent key is inserted with the given
   * quantity and price (a negative quantity included); an existing one
   * gets the quantity added and the price blended. No row is ever
   * deleted and no other key changes.
   */
  function Upserted(entries: map<HoldingKey, Holding>, key: HoldingKey, quantity: int, price: real)
    : (r: map<HoldingKey, Holding>)
    ensures r.Keys == entries.Keys + {key}
    ensures key !in entries ==> r[key] == Holding(quantity, price)
    ensures key in entries ==> r[key].quantity == entries[key].quantity + quantity
    ensures key in entries && r[key].quantity > 0 ==>
      r[key].price * r[key].quantity as real
        == entries[key].price * entries[key].quantity as real + price * quantity as real
    ensures key in entries && r[key].quantity <= 0 ==> r[key].price == entries[key].price
    ensures forall k :: k in entries && k != key ==> r[k] == entries[k]
  {
    if key in entries then
      var held := entries[key];
      entries[key := Holding(held.quantity + quantity, Blend(held.quantity, held.price, quantity, price))]
    else
      entries[key := Holding(quantity, price)]
  }

  /**
   * `reducePortfolioEntry`: the row loses `quantity`; it is deleted when
   * what is left is 0 or less and kept, price unchanged, otherwise. An
   * absent key changes nothing.
   */
  function Reduced(entries: map<HoldingKey, Holding>, key: HoldingKey, quantity: int)
    : (r: map<HoldingKey, Holding>)
    ensures key !in entries ==> r == entries
    ensures r.Keys <= entries.Keys
    ensures key in entries ==> (key in r <==> entries[key].quantity - quantity > 0)
    ensures key in r ==> r[key] == Holding(entries[key].quantity - quantity, entries[key].price)
    ensures forall k :: k in entries && k != key ==> k in r && r[k] == entries[k]
  {
    if key !in entries then entries
    else if entries[key].quantity - quantity <= 0 then entries - {key}
    else entries[key := entries[key].(quantity := entries[key].quantity - quantity)]
  }

  class PortfolioStore {
    var entries: map<HoldingKey, Holding>

    constructor ()
      ensures entries == map[]
    {
      entries := map[];
    }

    /** `getPortfolio`: exactly the rows of that user. */
    function GetPortfolio(userId: string): (r: map<HoldingKey, Holding>)
      reads this
      ensures forall k :: k in r <==> k in entries && k.userId == userId
      ensures forall k :: k in r ==> r[k] == entries[k]
    {
      map k | k in entries && k.userId == userId :: entries[k]
    }

    method UpsertPortfolioEntry(userId: string, symbol: string, quantity: int, price: real)
      modifies this
      ensures entries == Upserted(old(entries), HoldingKey(userId, symbol), quantity, price)
      ensures forall u :: u != userId ==> GetPortfolio(u) == old(GetPortfolio(u))
    {
      entries := Upserted(entries, HoldingKey(userId, symbol), quantity, price);
    }

    /** `deletePortfolioEntry`: removes that (userId, symbol) row and nothing else. */
    method DeletePortfolioEntry(userId: string, symbol: string)
      modifies this
      ensures entries == old(entries) - {HoldingKey(userId, symbol)}
      ensures forall u :: u != userId ==> GetPortfolio(u) == old(GetPortfolio(u))
    {
      entries := entries - {HoldingKey(userId, symbol)};
    }

    /** `reducePortfolioEntry`, step by step: update, read back, delete when 0 or less. */
    method ReducePortfolioEntry(userId: string, symbol: string, quantity: int)
      modifies this
      ensures entries == Reduced(old(entries), HoldingKey(userId, symbol), quantity)
      ensures forall u :: u != userId ==> GetPortfolio(u) == old(GetPortfolio(u))
    {
      var key := HoldingKey(userId, symbol);
      if key in entries {
        entries := entries[key := entries[key].(quantity := entries[key].quantity - quantity)];
      }
      var row := if key in entries then Some(entries[key].quantity) else None;
      if row.Some? && row.value <= 0 {
        DeletePortfolioEntry(userId, symbol);
      }
    }
  }

  /** Two buys of 10 at 100 and 10 at 200 leave a holding of 20 at 150. */
  lemma TwoBuysAverage(k: HoldingKey)
    ensures Upserted(Upserted(map[], k, 10, 100.0), k, 10, 200.0)[k] == Holding(20, 150.0)
  {
  }

  /** A sell leg on an absent key inserts a negative holding rather than failing. */
  lemma SellIntoEmptyIsNegative(entries: map<HoldingKey, Holding>, k: HoldingKey, quantity: int, price: real)
    requires k !in entries && quantity > 0
    ensures var r := Upserted(entries, k, -quantity, price);
      k in r && r[k].quantity < 0
  {
  }
}
