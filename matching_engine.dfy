/**
 * The `MatchingEngine` class of src/matching/matchingEngine.ts: it owns
 * an order book, runs a matching pass for each incoming order, and
 * settles each trade against the account, holdings and orders stores.
 */
module Engine {
  import opened Orders
  import opened Book
  import opened Matching
  import opened UserService
  import opened PortfolioService
  import opened OrderService

  // ---------------------------------------------------------------------
  // What the engine keeps true of the resting orders
  // ---------------------------------------------------------------------

  /** Every resting order still has quantity to trade. */
  ghost predicate AllPositive(b: BookSide)
  {
    forall sym :: sym in b.queues ==> Positive(b.queues[sym])
  }

  /** No id rests on both sides. */
  ghost predicate Apart(buys: BookSide, sells: BookSide)
  {
    forall s, t :: s in buys.queues && t in sells.queues ==> IdsIn(buys.queues[s]) !! IdsIn(sells.queues[t])
  }

  /**
   * The book invariant plus what the engine adds: ids identify resting
   * orders across the whole book, and every resting quantity is positive.
   */
  ghost predicate Resting(buys: BookSide, sells: BookSide)
  {
    && WellFormed(buys) && WellFormed(sells)
    && Filed(buys, Buy) && Filed(sells, Sell)
    && QueuesSorted(buys, Buy) && QueuesSorted(sells, Sell)
    && Separate(buys) && Separate(sells) && Apart(buys, sells)
    && AllPositive(buys) && AllPositive(sells)
  }

  /** Each queue of `b` holds only ids the same queue of `a` holds. */
  ghost predicate IdsWithin(b: BookSide, a: BookSide)
  {
    && b.queues.Keys == a.queues.Keys
    && forall sym :: sym in b.queues ==> IdsIn(b.queues[sym]) <= IdsIn(a.queues[sym])
  }

  /** The side with the symbol's queue replaced by `q` (no change for an unknown symbol). */
  function Refiled(b: BookSide, sym: string, q: seq<Order>): (r: BookSide)
    ensures r.symbols == b.symbols && r.queues.Keys == b.queues.Keys
    ensures sym in b.queues ==> QueueOf(r, sym) == q
    ensures forall s :: s != sym ==> QueueOf(r, s) == QueueOf(b, s)
  {
    if sym in b.queues then b.(queues := b.queues[sym := q]) else b
  }

  /** `best.quantity -= t`: the head of the symbol's queue, lowered in place. */
  function Decremented(b: BookSide, sym: string, t: int): (r: BookSide)
    requires QueueOf(b, sym) != []
    ensures r.symbols == b.symbols && r.queues.Keys == b.queues.Keys
    ensures QueueOf(r, sym) == Lowered(QueueOf(b, sym), t)
    ensures forall s :: s != sym ==> QueueOf(r, s) == QueueOf(b, s)
  {
    Refiled(b, sym, Lowered(b.queues[sym], t))
  }

  /** The queue the incoming order matches against: the SELL side for a BUY, the BUY side for a SELL. */
  function Facing(buys: BookSide, sells: BookSide, side: Side): BookSide
  {
    if side == Buy then sells else buys
  }

  lemma WithinKeeps(b: BookSide, a: BookSide, id: int)
    requires IdsWithin(b, a)
    ensures Separate(a) ==> Separate(b)
    ensures Absent(a, id) ==> Absent(b, id)
  {
  }

  lemma ApartWithin(buys: BookSide, sells: BookSide, buys0: BookSide, sells0: BookSide)
    requires IdsWithin(buys, buys0) && IdsWithin(sells, sells0) && Apart(buys0, sells0)
    ensures Apart(buys, sells)
  {
    forall s, t | s in buys.queues && t in sells.queues
      ensures IdsIn(buys.queues[s]) !! IdsIn(sells.queues[t])
    {
      assert IdsIn(buys0.queues[s]) !! IdsIn(sells0.queues[t]);
    }
  }

  /**
   * Replacing one queue by a sorted queue of orders of that symbol and
   * side, each with positive quantity and an id the old queue held, keeps
   * every invariant of the side.
   */
  lemma RefiledKeeps(b: BookSide, side: Side, sym: string, q: seq<Order>)
    requires WellFormed(b) && Filed(b, side) && QueuesSorted(b, side) && AllPositive(b)
    requires Sorted(side, q) && Positive(q) && IdsIn(q) <= IdsIn(QueueOf(b, sym))
    requires forall i :: 0 <= i < |q| ==> q[i].symbol == sym && q[i].side == side
    ensures var r := Refiled(b, sym, q);
      && WellFormed(r) && Filed(r, side) && QueuesSorted(r, side) && AllPositive(r)
      && IdsWithin(r, b)
  {
    var r := Refiled(b, sym, q);
    forall s | s in r.queues
      ensures Sorted(side, r.queues[s]) && Positive(r.queues[s])
      ensures IdsIn(r.queues[s]) <= IdsIn(b.queues[s])
      ensures forall i :: 0 <= i < |r.queues[s]| ==> r.queues[s][i].symbol == s && r.queues[s][i].side == side
    {
      if s == sym {
        assert r.queues[s] == q;
      } else {
        assert r.queues[s] == b.queues[s];
      }
    }
  }

  lemma LoweredKeeps(side: Side, q: seq<Order>, t: int)
    requires q != [] && Sorted(side, q)
    ensures Sorted(side, Lowered(q, t))
    ensures IdsIn(Lowered(q, t)) == IdsIn(q)
  {
    var q' := Lowered(q, t);
    assert forall i :: 0 <= i < |q| ==> q'[i].price == q[i].price && q'[i].createdAt == q[i].createdAt;
    forall i, j | 0 <= i < j < |q'| ensures Precedes(side, q'[i], q'[j]) {
      assert Precedes(side, q[i], q[j]);
    }
    LoweredIds(q, t);
  }

  lemma LoweredIds(q: seq<Order>, t: int)
    requires q != []
    ensures IdsIn(Lowered(q, t)) == IdsIn(q)
  {
    var q' := Lowered(q, t);
    assert forall i :: 0 <= i < |q| ==> q'[i].id == q[i].id;
    forall id | id in IdsIn(q) ensures id in IdsIn(q') {
      var i :| 0 <= i < |q| && q[i].id == id;
      assert q'[i] in q';
    }
    forall id | id in IdsIn(q') ensures id in IdsIn(q) {
      var i :| 0 <= i < |q'| && q'[i].id == id;
      assert q[i] in q;
    }
  }

  lemma TailKeeps(side: Side, q: seq<Order>)
    requires q != [] && Sorted(side, q)
    ensures Sorted(side, q[1..])
    ensures IdsIn(q[1..]) <= IdsIn(q)
  {
    forall id | id in IdsIn(q[1..]) ensures id in IdsIn(q) {
      var o :| o in q[1..] && o.id == id;
      assert o in q;
    }
  }

  /**
   * Lowering the head by a quantity it has keeps every invariant of the
   * side but positivity of that head, and the ids of every queue.
   */
  lemma DecrementKeeps(b: BookSide, side: Side, sym: string, t: int)
    requires WellFormed(b) && Filed(b, side) && QueuesSorted(b, side) && AllPositive(b)
    requires QueueOf(b, sym) != [] && 0 < t < QueueOf(b, sym)[0].quantity
    ensures var d := Decremented(b, sym, t);
      && WellFormed(d) && Filed(d, side) && QueuesSorted(d, side) && AllPositive(d)
      && IdsWithin(d, b)
  {
    var q := b.queues[sym];
    LoweredKeeps(side, q, t);
    assert Lowered(q, t) == [q[0].(quantity := q[0].quantity - t)] + q[1..];
    RefiledKeeps(b, side, sym, Lowered(q, t));
  }

  /** Lowering the head keeps the side well-formed, filed and sorted, as `removeOrder` needs. */
  lemma DecrementKeepsBook(b: BookSide, side: Side, sym: string, t: int)
    requires WellFormed(b) && Filed(b, side) && QueuesSorted(b, side)
    requires QueueOf(b, sym) != []
    ensures var d := Decremented(b, sym, t);
      WellFormed(d) && Filed(d, side) && QueuesSorted(d, side)
  {
    var q := b.queues[sym];
    var d := Decremented(b, sym, t);
    LoweredKeeps(side, q, t);
    assert d.queues[sym] == Lowered(q, t);
    forall s | s in d.queues
      ensures Sorted(side, d.queues[s])
      ensures forall i :: 0 <= i < |d.queues[s]| ==> d.queues[s][i].symbol == s && d.queues[s][i].side == side
    {
      if s != sym {
        assert d.queues[s] == b.queues[s];
      }
    }
  }

  /** Dropping the head keeps every invariant of the side; the side only loses ids. */
  lemma PopKeeps(b: BookSide, side: Side, sym: string)
    requires WellFormed(b) && Filed(b, side) && QueuesSorted(b, side) && AllPositive(b)
    requires QueueOf(b, sym) != []
    ensures var p := Refiled(b, sym, QueueOf(b, sym)[1..]);
      && WellFormed(p) && Filed(p, side) && QueuesSorted(p, side) && AllPositive(p)
      && IdsWithin(p, b)
  {
    var q := b.queues[sym];
    TailKeeps(side, q);
    RefiledKeeps(b, side, sym, q[1..]);
  }

  /**
   * With the engine's invariant, `removeOrder` of the best SELL order's id
   * finds no BUY match and splices out exactly that head.
   */
  lemma RemoveHeadOfSells(buys: BookSide, sells: BookSide, sym: string)
    requires WellFormed(buys) && WellFormed(sells) && Separate(sells) && Apart(buys, sells)
    requires QueueOf(sells, sym) != []
    ensures var q := QueueOf(sells, sym);
      RemoveById(buys, sells, q[0].id) == Removal(true, buys, Refiled(sells, sym, q[1..]))
  {
    var q := sells.queues[sym];
    var id := q[0].id;
    assert id in IdsIn(q);
    assert Absent(buys, id);
    AbsentWhenNotFound(buys, id);
    FoundInOnlyQueue(sells, id, sym);
    var loc := FindFrom(sells, id, 0).value;
    assert IndexOf(q, id) == 0;
    assert RemoveAt(q, 0) == q[1..];
  }

  /** The mirror image: the best BUY order's id is found first, at the head of its queue. */
  lemma RemoveHeadOfBuys(buys: BookSide, sells: BookSide, sym: string)
    requires WellFormed(buys) && WellFormed(sells) && Separate(buys)
    requires QueueOf(buys, sym) != []
    ensures var q := QueueOf(buys, sym);
      RemoveById(buys, sells, q[0].id) == Removal(true, Refiled(buys, sym, q[1..]), sells)
  {
    var q := buys.queues[sym];
    var id := q[0].id;
    assert id in IdsIn(q);
    FoundInOnlyQueue(buys, id, sym);
    assert IndexOf(q, id) == 0;
    assert RemoveAt(q, 0) == q[1..];
  }

  /** The ids of each queue after placing `x`: `x.id` joins its symbol's queue only. */
  lemma PlacedIds(b: BookSide, x: Order, s: string)
    ensures IdsIn(QueueOf(Placed(b, x), s)) == IdsIn(QueueOf(b, s)) + (if s == x.symbol then {x.id} else {})
  {
    var empty: seq<Order> := [];
    assert IdsIn(empty) == {};
  }

  lemma EmptyIds()
    ensures IdsIn([]) == {}
  {
    var empty: seq<Order> := [];
    assert forall id :: id !in IdsIn(empty);
  }

  lemma PlacedKeepsSeparate(b: BookSide, x: Order)
    requires Separate(b) && Absent(b, x.id)
    ensures Separate(Placed(b, x))
  {
    var p := Placed(b, x);
    EmptyIds();
    forall s, t | s in p.queues && t in p.queues && s != t
      ensures IdsIn(p.queues[s]) !! IdsIn(p.queues[t])
    {
      PlacedPairDisjoint(b, x, s, t);
    }
  }

  lemma PlacedPairDisjoint(b: BookSide, x: Order, s: string, t: string)
    requires Separate(b) && Absent(b, x.id) && s != t
    ensures IdsIn(QueueOf(Placed(b, x), s)) !! IdsIn(QueueOf(Placed(b, x), t))
  {
    PlacedIds(b, x, s);
    PlacedIds(b, x, t);
    EmptyIds();
    if s in b.queues && t in b.queues {
      assert IdsIn(b.queues[s]) !! IdsIn(b.queues[t]);
    } else if s in b.queues {
      assert x.id !in IdsIn(b.queues[s]);
    } else if t in b.queues {
      assert x.id !in IdsIn(b.queues[t]);
    }
  }

  lemma PlacedKeepsApart(buys: BookSide, sells: BookSide, x: Order)
    requires Apart(buys, sells) && Absent(buys, x.id) && Absent(sells, x.id)
    ensures x.side == Buy ==> Apart(Placed(buys, x), sells)
    ensures x.side == Sell ==> Apart(buys, Placed(sells, x))
  {
    EmptyIds();
    if x.side == Buy {
      var p := Placed(buys, x);
      forall s, t | s in p.queues && t in sells.queues
        ensures IdsIn(p.queues[s]) !! IdsIn(sells.queues[t])
      {
        PlacedIds(buys, x, s);
        assert IdsIn(QueueOf(buys, s)) !! IdsIn(sells.queues[t]);
      }
    } else {
      var p := Placed(sells, x);
      forall s, t | s in buys.queues && t in p.queues
        ensures IdsIn(buys.queues[s]) !! IdsIn(p.queues[t])
      {
        PlacedIds(sells, x, t);
        assert IdsIn(buys.queues[s]) !! IdsIn(QueueOf(sells, t));
      }
    }
  }

  lemma PlacedKeepsPositive(b: BookSide, x: Order)
    requires AllPositive(b) && x.quantity > 0
    ensures AllPositive(Placed(b, x))
  {
    var p := Placed(b, x);
    var q := QueueOf(p, x.symbol);
    var q0 := QueueOf(b, x.symbol);
    assert Positive(q) by {
      forall i | 0 <= i < |q| ensures q[i].quantity > 0 {
        assert q[i] in multiset(q);
        if q[i] != x {
          assert q[i] in multiset(q0);
        }
      }
    }
    forall s | s in p.queues ensures Positive(p.queues[s]) {
      if s != x.symbol {
        assert p.queues[s] == QueueOf(b, s);
      }
    }
  }

  /** Placing an order whose id rests nowhere keeps the engine's invariant. */
  lemma PlacedKeepsResting(buys: BookSide, sells: BookSide, x: Order)
    requires Resting(buys, sells) && x.quantity > 0
    requires Absent(buys, x.id) && Absent(sells, x.id)
    ensures x.side == Buy ==> Resting(Placed(buys, x), sells)
    ensures x.side == Sell ==> Resting(buys, Placed(sells, x))
  {
    var own := if x.side == Buy then buys else sells;
    PlacedKeepsInvariants(own, x);
    PlacedKeepsSeparate(own, x);
    PlacedKeepsPositive(own, x);
    PlacedKeepsApart(buys, sells, x);
  }

  /** `removeOrder` of any id keeps the engine's invariant. */
  lemma RemovalKeepsResting(buys: BookSide, sells: BookSide, id: int)
    requires Resting(buys, sells)
    ensures var r := RemoveById(buys, sells, id);
      Resting(r.buys, r.sells) && IdsWithin(r.buys, buys) && IdsWithin(r.sells, sells)
  {
    match FindFrom(buys, id, 0)
    case Some(loc) =>
      BuyRemovedKeeps(buys, sells, loc);
    case None =>
      AbsentWhenNotFound(buys, id);
      match FindFrom(sells, id, 0)
      case Some(loc) =>
        SellRemovedKeeps(buys, sells, loc);
      case None =>
  }

  lemma BuyRemovedKeeps(buys: BookSide, sells: BookSide, loc: Location)
    requires Resting(buys, sells)
    requires loc.rank < |buys.symbols| && loc.index < |QueueOf(buys, buys.symbols[loc.rank])|
    ensures Resting(Without(buys, loc), sells) && IdsWithin(Without(buys, loc), buys) && IdsWithin(sells, sells)
  {
    var w := Without(buys, loc);
    WithoutShrinks(buys, loc, Buy);
    WithinKeeps(w, buys, 0);
    ApartWithin(w, sells, buys, sells);
  }

  lemma SellRemovedKeeps(buys: BookSide, sells: BookSide, loc: Location)
    requires Resting(buys, sells)
    requires loc.rank < |sells.symbols| && loc.index < |QueueOf(sells, sells.symbols[loc.rank])|
    ensures Resting(buys, Without(sells, loc)) && IdsWithin(Without(sells, loc), sells) && IdsWithin(buys, buys)
  {
    var w := Without(sells, loc);
    WithoutShrinks(sells, loc, Sell);
    WithinKeeps(w, sells, 0);
    ApartWithin(buys, w, buys, sells);
  }

  lemma WithoutShrinks(b: BookSide, loc: Location, side: Side)
    requires WellFormed(b) && Filed(b, side) && QueuesSorted(b, side) && AllPositive(b)
    requires loc.rank < |b.symbols| && loc.index < |QueueOf(b, b.symbols[loc.rank])|
    ensures var w := Without(b, loc);
      && WellFormed(w) && Filed(w, side) && QueuesSorted(w, side) && AllPositive(w)
      && IdsWithin(w, b)
  {
    WithoutKeepsInvariants(b, loc, side);
    var w := Without(b, loc);
    var sym := b.symbols[loc.rank];
    SplicePositive(QueueOf(b, sym), loc.index);
    forall s | s in w.queues ensures Positive(w.queues[s]) {
      if s != sym {
        assert w.queues[s] == QueueOf(b, s);
      }
    }
    forall s | s in w.queues ensures IdsIn(w.queues[s]) <= IdsIn(b.queues[s]) {
      if s != sym {
        assert w.queues[s] == QueueOf(b, s);
      }
    }
  }

  /** A splice keeps every remaining quantity positive. */
  lemma SplicePositive(q: seq<Order>, i: nat)
    requires i < |q| && Positive(q)
    ensures Positive(RemoveAt(q, i))
  {
    var r := RemoveAt(q, i);
    assert r == q[..i] + q[i + 1..];
    forall j | 0 <= j < |r| ensures r[j].quantity > 0 {
      if j < i {
        assert r[j] == q[j];
      } else {
        assert r[j] == q[j + 1];
      }
    }
  }

  /** Lowering a head changes no id. */
  lemma DecrementedIds(b: BookSide, sym: string, t: int)
    requires QueueOf(b, sym) != []
    ensures IdsWithin(Decremented(b, sym, t), b)
  {
    var d := Decremented(b, sym, t);
    LoweredIds(b.queues[sym], t);
    forall s | s in d.queues ensures IdsIn(d.queues[s]) <= IdsIn(b.queues[s]) {
      if s != sym {
        assert d.queues[s] == QueueOf(b, s);
      }
    }
  }

  /**
   * A turn of `matchBuyOrder`'s loop that lowers the best ask by part of
   * its quantity keeps the engine's invariant and adds no id.
   */
  lemma SellPartlyFilled(buys: BookSide, sells: BookSide, sym: string, t: int)
    requires Resting(buys, sells)
    requires QueueOf(sells, sym) != [] && 0 < t < QueueOf(sells, sym)[0].quantity
    ensures var d := Decremented(sells, sym, t);
      Resting(buys, d) && IdsWithin(d, sells)
  {
    var d := Decremented(sells, sym, t);
    DecrementKeeps(sells, Sell, sym, t);
    WithinKeeps(d, sells, 0);
    ApartWithin(buys, d, buys, sells);
  }

  /**
   * A turn that lowers the best ask to 0: the book is still valid for
   * `removeOrder`, which finds no BUY match and splices out exactly that
   * ask; what is left keeps the engine's invariant.
   */
  lemma SellFilled(buys: BookSide, sells: BookSide, sym: string)
    requires Resting(buys, sells)
    requires QueueOf(sells, sym) != []
    ensures var q := QueueOf(sells, sym);
      var d := Decremented(sells, sym, q[0].quantity);
      && WellFormed(d) && Filed(d, Sell) && QueuesSorted(d, Sell)
      && RemoveById(buys, d, q[0].id) == Removal(true, buys, Refiled(sells, sym, q[1..]))
      && Resting(buys, Refiled(sells, sym, q[1..]))
      && IdsWithin(Refiled(sells, sym, q[1..]), sells)
  {
    var q := sells.queues[sym];
    var d := Decremented(sells, sym, q[0].quantity);
    var p := Refiled(sells, sym, q[1..]);
    assert WellFormed(d) && Filed(d, Sell) && QueuesSorted(d, Sell) by {
      DecrementKeepsBook(sells, Sell, sym, q[0].quantity);
    }
    assert RemoveById(buys, d, q[0].id) == Removal(true, buys, p) by {
      DecrementKeepsBook(sells, Sell, sym, q[0].quantity);
      DecrementedIds(sells, sym, q[0].quantity);
      WithinKeeps(d, sells, 0);
      ApartWithin(buys, d, buys, sells);
      RemoveHeadOfSells(buys, d, sym);
      RefiledTwice(sells, sym, Lowered(q, q[0].quantity), q[1..]);
    }
    assert Resting(buys, p) && IdsWithin(p, sells) by {
      PopKeeps(sells, Sell, sym);
      WithinKeeps(p, sells, 0);
      ApartWithin(buys, p, buys, sells);
    }
  }

  /** The mirror image of SellPartlyFilled for `matchSellOrder`'s loop on the BUY side. */
  lemma BuyPartlyFilled(buys: BookSide, sells: BookSide, sym: string, t: int)
    requires Resting(buys, sells)
    requires QueueOf(buys, sym) != [] && 0 < t < QueueOf(buys, sym)[0].quantity
    ensures var d := Decremented(buys, sym, t);
      Resting(d, sells) && IdsWithin(d, buys)
  {
    var d := Decremented(buys, sym, t);
    DecrementKeeps(buys, Buy, sym, t);
    WithinKeeps(d, buys, 0);
    ApartWithin(d, sells, buys, sells);
  }

  /** The mirror image of SellFilled: the best bid is found first, at the head of its queue. */
  lemma BuyFilled(buys: BookSide, sells: BookSide, sym: string)
    requires Resting(buys, sells)
    requires QueueOf(buys, sym) != []
    ensures var q := QueueOf(buys, sym);
      var d := Decremented(buys, sym, q[0].quantity);
      && WellFormed(d) && Filed(d, Buy) && QueuesSorted(d, Buy)
      && RemoveById(d, sells, q[0].id) == Removal(true, Refiled(buys, sym, q[1..]), sells)
      && Resting(Refiled(buys, sym, q[1..]), sells)
      && IdsWithin(Refiled(buys, sym, q[1..]), buys)
  {
    var q := buys.queues[sym];
    var d := Decremented(buys, sym, q[0].quantity);
    var p := Refiled(buys, sym, q[1..]);
    assert WellFormed(d) && Filed(d, Buy) && QueuesSorted(d, Buy) by {
      DecrementKeepsBook(buys, Buy, sym, q[0].quantity);
    }
    assert RemoveById(d, sells, q[0].id) == Removal(true, p, sells) by {
      DecrementKeepsBook(buys, Buy, sym, q[0].quantity);
      DecrementedIds(buys, sym, q[0].quantity);
      WithinKeeps(d, buys, 0);
      RemoveHeadOfBuys(d, sells, sym);
      RefiledTwice(buys, sym, Lowered(q, q[0].quantity), q[1..]);
    }
    assert Resting(p, sells) && IdsWithin(p, buys) by {
      PopKeeps(buys, Buy, sym);
      WithinKeeps(p, buys, 0);
      ApartWithin(p, sells, buys, sells);
    }
  }

  /**
   * One decrement of the best ask by `t`, as `LowerSell` performs it: the
   * side it leaves (`AfterTrade` of the queue) keeps the invariant; a
   * partial fill is the decrement itself, and a fill to 0 is the
   * decrement followed by the removal of the ask by id.
   */
  lemma SellLowered(buys: BookSide, sells: BookSide, sym: string, t: int)
    requires Resting(buys, sells)
    requires QueueOf(sells, sym) != [] && 0 < t <= QueueOf(sells, sym)[0].quantity
    ensures var q := QueueOf(sells, sym);
      var d := Decremented(sells, sym, t);
      var after := Refiled(sells, sym, AfterTrade(q, t));
      && Resting(buys, after) && IdsWithin(after, sells)
      && (q[0].quantity - t == 0 ==>
            && WellFormed(d) && Filed(d, Sell) && QueuesSorted(d, Sell)
            && RemoveById(buys, d, q[0].id) == Removal(true, buys, after))
      && (q[0].quantity - t != 0 ==> d == after)
  {
    var q := QueueOf(sells, sym);
    if q[0].quantity - t == 0 {
      SellFilled(buys, sells, sym);
      assert AfterTrade(q, t) == q[1..];
    } else {
      SellPartlyFilled(buys, sells, sym, t);
      assert AfterTrade(q, t) == Lowered(q, t);
    }
  }

  /** The mirror image of SellLowered for the best bid. */
  lemma BuyLowered(buys: BookSide, sells: BookSide, sym: string, t: int)
    requires Resting(buys, sells)
    requires QueueOf(buys, sym) != [] && 0 < t <= QueueOf(buys, sym)[0].quantity
    ensures var q := QueueOf(buys, sym);
      var d := Decremented(buys, sym, t);
      var after := Refiled(buys, sym, AfterTrade(q, t));
      && Resting(after, sells) && IdsWithin(after, buys)
      && (q[0].quantity - t == 0 ==>
            && WellFormed(d) && Filed(d, Buy) && QueuesSorted(d, Buy)
            && RemoveById(d, sells, q[0].id) == Removal(true, after, sells))
      && (q[0].quantity - t != 0 ==> d == after)
  {
    var q := QueueOf(buys, sym);
    if q[0].quantity - t == 0 {
      BuyFilled(buys, sells, sym);
      assert AfterTrade(q, t) == q[1..];
    } else {
      BuyPartlyFilled(buys, sells, sym, t);
      assert AfterTrade(q, t) == Lowered(q, t);
    }
  }

  lemma RefiledSame(b: BookSide, sym: string)
    ensures Refiled(b, sym, QueueOf(b, sym)) == b
  {
    if sym in b.queues {
      assert b.queues[sym := b.queues[sym]] == b.queues;
    }
  }

  lemma RefiledTwice(b: BookSide, sym: string, q1: seq<Order>, q2: seq<Order>)
    ensures Refiled(Refiled(b, sym, q1), sym, q2) == Refiled(b, sym, q2)
  {
  }

  // ---------------------------------------------------------------------
  // Settlement
  // ---------------------------------------------------------------------

  /** The account id of the market simulator, which has no balance or holdings to settle. */
  const SIMULATED_TRADER := "SIMULATED_TRADER"

  /** `quantity * executionPrice` */
  function Cost(t: Trade): real
  {
    t.quantity as real * t.price
  }

  /** The buyer check passes: the buyer is the simulator or can pay the cost. */
  predicate Funded(balances: map<string, real>, t: Trade)
  {
    t.buyOrder.userId == SIMULATED_TRADER || BalanceOf(balances, t.buyOrder.userId) >= Cost(t)
  }

  /**
   * The balances after a funded trade, as written: the buyer is debited
   * the cost, then the seller's balance is set to the balance read from
   * the BUYER's row plus the cost.
   */
  function BalancesAfter(balances: map<string, real>, t: Trade): (r: map<string, real>)
    ensures r.Keys == balances.Keys
    ensures forall u :: u in balances && u != t.buyOrder.userId && u != t.sellOrder.userId ==> r[u] == balances[u]
    ensures t.buyOrder.userId == SIMULATED_TRADER && t.sellOrder.userId == SIMULATED_TRADER ==> r == balances
    // the buyer is debited the cost
    ensures (t.buyOrder.userId != SIMULATED_TRADER && t.buyOrder.userId in balances
             && t.buyOrder.userId != t.sellOrder.userId) ==>
      r[t.buyOrder.userId] == balances[t.buyOrder.userId] - Cost(t)
    // the seller gets the balance read from the buyer's row, after the debit, plus the cost
    ensures t.sellOrder.userId != SIMULATED_TRADER && t.sellOrder.userId in balances ==>
      r[t.sellOrder.userId] == Cost(t) +
        (if t.buyOrder.userId == SIMULATED_TRADER then BalanceOf(balances, SIMULATED_TRADER)
         else if t.buyOrder.userId in balances then balances[t.buyOrder.userId] - Cost(t)
         else 0.0)
  {
    var buyer, seller := t.buyOrder.userId, t.sellOrder.userId;
    var debited := if buyer != SIMULATED_TRADER then Written(balances, buyer, BalanceOf(balances, buyer) - Cost(t)) else balances;
    if seller != SIMULATED_TRADER then Written(debited, seller, BalanceOf(debited, buyer) + Cost(t)) else debited
  }

  /** The holdings after a trade: the buyer gains the quantity at the price, the seller loses it. */
  function HoldingsAfter(entries: map<HoldingKey, Holding>, t: Trade): (r: map<HoldingKey, Holding>)
    ensures var bk, sk := BuyerKey(t), SellerKey(t);
      r.Keys == entries.Keys
        + (if t.buyOrder.userId != SIMULATED_TRADER then {bk} else {})
        + (if t.sellOrder.userId != SIMULATED_TRADER then {sk} else {})
    ensures forall k :: (k in entries
                         && (k != BuyerKey(t) || t.buyOrder.userId == SIMULATED_TRADER)
                         && (k != SellerKey(t) || t.sellOrder.userId == SIMULATED_TRADER)) ==> r[k] == entries[k]
    // the buyer's row gains the quantity at the execution price
    ensures (t.buyOrder.userId != SIMULATED_TRADER
             && (t.sellOrder.userId == SIMULATED_TRADER || SellerKey(t) != BuyerKey(t))) ==>
      && r[BuyerKey(t)] == Upserted(entries, BuyerKey(t), t.quantity, t.price)[BuyerKey(t)]
      && r[BuyerKey(t)].quantity == HeldQuantity(entries, BuyerKey(t)) + t.quantity
    // the seller's row loses the quantity at the execution price
    ensures (t.sellOrder.userId != SIMULATED_TRADER
             && (t.buyOrder.userId == SIMULATED_TRADER || SellerKey(t) != BuyerKey(t))) ==>
      && r[SellerKey(t)] == Upserted(entries, SellerKey(t), -t.quantity, t.price)[SellerKey(t)]
      && r[SellerKey(t)].quantity == HeldQuantity(entries, SellerKey(t)) - t.quantity
    // a self-trade on one row: bought, then sold back, at the same price
    ensures (t.buyOrder.userId != SIMULATED_TRADER && t.sellOrder.userId != SIMULATED_TRADER
             && SellerKey(t) == BuyerKey(t)) ==>
      && r[BuyerKey(t)] == Upserted(Upserted(entries, BuyerKey(t), t.quantity, t.price), BuyerKey(t), -t.quantity, t.price)[BuyerKey(t)]
      && r[BuyerKey(t)].quantity == HeldQuantity(entries, BuyerKey(t))
  {
    var buyer, seller := t.buyOrder.userId, t.sellOrder.userId;
    var bought := if buyer != SIMULATED_TRADER then Upserted(entries, HoldingKey(buyer, t.buyOrder.symbol), t.quantity, t.price) else entries;
    if seller != SIMULATED_TRADER then Upserted(bought, HoldingKey(seller, t.sellOrder.symbol), -t.quantity, t.price) else bought
  }

  /** The holdings row of the buying account for the traded symbol. */
  function BuyerKey(t: Trade): HoldingKey
  {
    HoldingKey(t.buyOrder.userId, t.buyOrder.symbol)
  }

  /** The holdings row of the selling account for the traded symbol. */
  function SellerKey(t: Trade): HoldingKey
  {
    HoldingKey(t.sellOrder.userId, t.sellOrder.symbol)
  }

  /** Both legs' statuses, from the quantities the legs carry when settlement reads them. */
  function StatusesAfter(rows: map<int, Order>, t: Trade, buyQuantity: int, sellQuantity: int): (r: map<int, Order>)
    ensures r.Keys == rows.Keys
    ensures t.sellOrder.id in rows ==> r[t.sellOrder.id].status == LegStatus(sellQuantity)
    ensures t.buyOrder.id in rows && t.buyOrder.id != t.sellOrder.id ==> r[t.buyOrder.id].status == LegStatus(buyQuantity)
    ensures forall id :: id in rows && id != t.buyOrder.id && id != t.sellOrder.id ==> r[id] == rows[id]
  {
    WithStatus(WithStatus(rows, t.buyOrder.id, LegStatus(buyQuantity)), t.sellOrder.id, LegStatus(sellQuantity))
  }

  /** The book after settlement removes every leg whose quantity is 0 (BUY leg first). */
  function Cleared(buys: BookSide, sells: BookSide, t: Trade, buyQuantity: int, sellQuantity: int): (r: Removal)
    requires WellFormed(buys) && WellFormed(sells)
    ensures buyQuantity != 0 && sellQuantity != 0 ==> r.buys == buys && r.sells == sells
    ensures buyQuantity == 0 && sellQuantity != 0 ==> r == RemoveById(buys, sells, t.buyOrder.id)
    ensures buyQuantity != 0 && sellQuantity == 0 ==> r == RemoveById(buys, sells, t.sellOrder.id)
    ensures buyQuantity == 0 && sellQuantity == 0 ==>
      var first := RemoveById(buys, sells, t.buyOrder.id);
      r == RemoveById(first.buys, first.sells, t.sellOrder.id)
    // a leg the matching loop already removed is not found again: the book stays as it was
    ensures ((buyQuantity != 0 || (Absent(buys, t.buyOrder.id) && Absent(sells, t.buyOrder.id)))
             && (sellQuantity != 0 || (Absent(buys, t.sellOrder.id) && Absent(sells, t.sellOrder.id)))) ==>
      r.buys == buys && r.sells == sells
  {
    var first := if buyQuantity == 0 then RemoveById(buys, sells, t.buyOrder.id) else Removal(false, buys, sells);
    if sellQuantity == 0 then RemoveById(first.buys, first.sells, t.sellOrder.id) else first
  }

  /**
   * The seller's credit reads the buyer's row: between two distinct real
   * accounts, the buyer loses the cost and the seller ends with the
   * buyer's balance from before the trade, whatever the seller had.
   */
  lemma SellerTakesBuyersBalance(balances: map<string, real>, t: Trade)
    requires t.buyOrder.userId != SIMULATED_TRADER && t.sellOrder.userId != SIMULATED_TRADER
    requires t.buyOrder.userId != t.sellOrder.userId
    requires t.buyOrder.userId in balances && t.sellOrder.userId in balances
    ensures var r := BalancesAfter(balances, t);
      && r[t.buyOrder.userId] == balances[t.buyOrder.userId] - Cost(t)
      && r[t.sellOrder.userId] == balances[t.buyOrder.userId]
  {
  }

  /**
   * So the credit is the intended `seller + cost` only when the seller's
   * balance happens to equal the buyer's minus the cost: buyer 2000,
   * seller 300, 10 at 150 leaves the seller with 2000 rather than 1800.
   */
  lemma SellerCreditExample()
    ensures var buy := Order(1, "buyer", "AAPL", Buy, 10, 150.0, Pending, 0);
      var sell := Order(2, "seller", "AAPL", Sell, 10, 150.0, Pending, 0);
      var r := BalancesAfter(map["buyer" := 2000.0, "seller" := 300.0], Trade(buy, sell, 10, 150.0));
      r == map["buyer" := 500.0, "seller" := 2000.0]
  {
  }

  /**
   * A SELL that trades against the simulator's BUY, which has no account
   * row, has its balance set to the cost alone: what the seller held
   * before is overwritten.
   */
  lemma SimulatorBuyerSetsSellerToCost(balances: map<string, real>, t: Trade)
    requires t.buyOrder.userId == SIMULATED_TRADER && SIMULATED_TRADER !in balances
    requires t.sellOrder.userId != SIMULATED_TRADER && t.sellOrder.userId in balances
    ensures BalancesAfter(balances, t) == balances[t.sellOrder.userId := Cost(t)]
  {
  }

  /** A BUY against the simulator's SELL only debits the buyer. */
  lemma SimulatorSellerDebitsBuyer(balances: map<string, real>, t: Trade)
    requires t.sellOrder.userId == SIMULATED_TRADER
    requires t.buyOrder.userId != SIMULATED_TRADER && t.buyOrder.userId in balances
    ensures BalancesAfter(balances, t) == balances[t.buyOrder.userId := balances[t.buyOrder.userId] - Cost(t)]
  {
  }

  /** A self-trade leaves the account's balance as it was. */
  lemma SelfTradeKeepsBalance(balances: map<string, real>, t: Trade)
    requires t.buyOrder.userId == t.sellOrder.userId && t.buyOrder.userId != SIMULATED_TRADER
    requires t.buyOrder.userId in balances
    ensures BalancesAfter(balances, t) == balances
  {
  }

  /**
   * Between two distinct real accounts the buyer's holding of the symbol
   * grows by the traded quantity and the seller's shrinks by it (a missing
   * holding counts as 0).
   */
  lemma HoldingsMove(entries: map<HoldingKey, Holding>, t: Trade)
    requires t.buyOrder.userId != SIMULATED_TRADER && t.sellOrder.userId != SIMULATED_TRADER
    requires t.buyOrder.userId != t.sellOrder.userId
    ensures var r := HoldingsAfter(entries, t);
      var bk := HoldingKey(t.buyOrder.userId, t.buyOrder.symbol);
      var sk := HoldingKey(t.sellOrder.userId, t.sellOrder.symbol);
      && bk in r && sk in r
      && r[bk].quantity == HeldQuantity(entries, bk) + t.quantity
      && r[sk].quantity == HeldQuantity(entries, sk) - t.quantity
  {
  }

  function HeldQuantity(entries: map<HoldingKey, Holding>, k: HoldingKey): int
  {
    if k in entries then entries[k].quantity else 0
  }

  // ---------------------------------------------------------------------
  // The engine
  // ---------------------------------------------------------------------

  class MatchingEngine {
    const book: OrderBook

    ghost predicate Valid()
      reads book
    {
      Resting(book.buys, book.sells)
    }

    constructor ()
      ensures Valid() && fresh(book)
      ensures book.buys == EmptySide && book.sells == EmptySide
    {
      book := new OrderBook();
    }

    /**
     * `matchOrder`: one pass of `Match` against the opposite queue of the
     * order's symbol, which is left as the pass leaves it; a remainder is
     * placed on the order's own side. The order's id must rest nowhere in
     * the book (ids are the orders table's primary key).
     */
    method MatchOrder(order: Order) returns (trades: seq<Trade>, incoming: Order)
      requires Valid()
      requires Absent(book.buys, order.id) && Absent(book.sells, order.id)
      modifies book
      ensures Valid()
      ensures var r := Match(order, order.quantity, QueueOf(Facing(old(book.buys), old(book.sells), order.side), order.symbol));
        && trades == r.trades
        && incoming == Remainder(order, r.remaining)
        && (order.side == Buy ==>
              && book.sells == Refiled(old(book.sells), order.symbol, r.rest)
              && book.buys == if r.remaining > 0 then Placed(old(book.buys), incoming) else old(book.buys))
        && (order.side == Sell ==>
              && book.buys == Refiled(old(book.buys), order.symbol, r.rest)
              && book.sells == if r.remaining > 0 then Placed(old(book.sells), incoming) else old(book.sells))
    {
      if order.side == Buy {
        trades, incoming := MatchBuyOrder(order);
      } else {
        trades, incoming := MatchSellOrder(order);
      }
    }

    /**
     * `matchBuyOrder`. `getSellOrders` hands back the book's own array,
     * which the removals in the loop splice, so each turn reads the
     * symbol's SELL queue as it stands.
     */
    method MatchBuyOrder(order: Order) returns (trades: seq<Trade>, incoming: Order)
      requires Valid() && order.side == Buy
      requires Absent(book.buys, order.id) && Absent(book.sells, order.id)
      modifies book
      ensures Valid()
      ensures var r := Match(order, order.quantity, QueueOf(old(book.sells), order.symbol));
        && trades == r.trades
        && incoming == Remainder(order, r.remaining)
        && book.sells == Refiled(old(book.sells), order.symbol, r.rest)
        && book.buys == if r.remaining > 0 then Placed(old(book.buys), incoming) else old(book.buys)
    {
      var remainingQuantity := order.quantity;
      ghost var full := Match(order, order.quantity, QueueOf(book.sells, order.symbol));
      trades := [];
      assert full == Resumed(trades, full);
      RefiledSame(book.sells, order.symbol);
      while QueueOf(book.sells, order.symbol) != [] && remainingQuantity > 0
        invariant Valid()
        invariant book.buys == old(book.buys)
        invariant Absent(book.sells, order.id)
        invariant book.sells == Refiled(old(book.sells), order.symbol, QueueOf(book.sells, order.symbol))
        invariant full == Resumed(trades, Match(order, remainingQuantity, QueueOf(book.sells, order.symbol)))
        decreases |QueueOf(book.sells, order.symbol)|, remainingQuantity
      {
        var bestSell := QueueOf(book.sells, order.symbol)[0];
        if order.price < bestSell.price {
          break;
        }
        trades, remainingQuantity := TradeWithSell(order, bestSell, old(book.sells), full, trades, remainingQuantity);
      }
      MatchStopped(order, full, trades, remainingQuantity, QueueOf(book.sells, order.symbol));
      incoming := PlaceRemainder(order, remainingQuantity);
    }

    /** `matchSellOrder`, the mirror image of MatchBuyOrder over the BUY queue. */
    method MatchSellOrder(order: Order) returns (trades: seq<Trade>, incoming: Order)
      requires Valid() && order.side == Sell
      requires Absent(book.buys, order.id) && Absent(book.sells, order.id)
      modifies book
      ensures Valid()
      ensures var r := Match(order, order.quantity, QueueOf(old(book.buys), order.symbol));
        && trades == r.trades
        && incoming == Remainder(order, r.remaining)
        && book.buys == Refiled(old(book.buys), order.symbol, r.rest)
        && book.sells == if r.remaining > 0 then Placed(old(book.sells), incoming) else old(book.sells)
    {
      var remainingQuantity := order.quantity;
      ghost var full := Match(order, order.quantity, QueueOf(book.buys, order.symbol));
      trades := [];
      assert full == Resumed(trades, full);
      RefiledSame(book.buys, order.symbol);
      while QueueOf(book.buys, order.symbol) != [] && remainingQuantity > 0
        invariant Valid()
        invariant book.sells == old(book.sells)
        invariant Absent(book.buys, order.id)
        invariant book.buys == Refiled(old(book.buys), order.symbol, QueueOf(book.buys, order.symbol))
        invariant full == Resumed(trades, Match(order, remainingQuantity, QueueOf(book.buys, order.symbol)))
        decreases |QueueOf(book.buys, order.symbol)|, remainingQuantity
      {
        var bestBuy := QueueOf(book.buys, order.symbol)[0];
        if order.price > bestBuy.price {
          break;
        }
        trades, remainingQuantity := TradeWithBuy(order, bestBuy, old(book.buys), full, trades, remainingQuantity);
      }
      MatchStopped(order, full, trades, remainingQuantity, QueueOf(book.buys, order.symbol));
      incoming := PlaceRemainder(order, remainingQuantity);
    }

    /**
     * The body of `matchBuyOrder`'s loop once the best SELL crosses: trade
     * `min(remaining, best.quantity)` at the best SELL's price, then lower it.
     */
    method TradeWithSell(order: Order, bestSell: Order, ghost origin: BookSide, ghost full: MatchResult,
                           trades: seq<Trade>, remaining: int)
      returns (after: seq<Trade>, left: int)
      requires Valid() && order.side == Buy
      requires QueueOf(book.sells, order.symbol) != [] && QueueOf(book.sells, order.symbol)[0] == bestSell
      requires remaining > 0 && order.price >= bestSell.price
      requires Absent(book.sells, order.id)
      requires book.sells == Refiled(origin, order.symbol, QueueOf(book.sells, order.symbol))
      requires full == Resumed(trades, Match(order, remaining, QueueOf(book.sells, order.symbol)))
      modifies book
      ensures Valid()
      ensures book.buys == old(book.buys)
      ensures Absent(book.sells, order.id)
      ensures book.sells == Refiled(origin, order.symbol, QueueOf(book.sells, order.symbol))
      ensures full == Resumed(after, Match(order, left, QueueOf(book.sells, order.symbol)))
      ensures |QueueOf(book.sells, order.symbol)| < |old(QueueOf(book.sells, order.symbol))|
        || (|QueueOf(book.sells, order.symbol)| == |old(QueueOf(book.sells, order.symbol))| && 0 <= left < remaining)
    {
      var tradeQuantity := Min(remaining, bestSell.quantity);
      var executionPrice := bestSell.price;
      ghost var q := QueueOf(book.sells, order.symbol);
      assert bestSell.symbol == order.symbol && bestSell.quantity > 0;
      after := trades + [Trade(order, bestSell, tradeQuantity, executionPrice)];
      left := remaining - tradeQuantity;
      MatchTurn(order, full, trades, remaining, q, Trade(order, bestSell, tradeQuantity, executionPrice), after, left, AfterTrade(q, tradeQuantity));
      ghost var before := book.sells;
      LowerSell(bestSell, tradeQuantity);
      assert QueueOf(book.sells, order.symbol) == AfterTrade(q, tradeQuantity);
      RefiledTwice(origin, order.symbol, q, AfterTrade(q, tradeQuantity));
      WithinKeeps(book.sells, before, order.id);
    }

    /**
     * The mirror image of TradeWithSell for `matchSellOrder`'s loop.
     */
    method TradeWithBuy(order: Order, bestBuy: Order, ghost origin: BookSide, ghost full: MatchResult,
                           trades: seq<Trade>, remaining: int)
      returns (after: seq<Trade>, left: int)
      requires Valid() && order.side == Sell
      requires QueueOf(book.buys, order.symbol) != [] && QueueOf(book.buys, order.symbol)[0] == bestBuy
      requires remaining > 0 && order.price <= bestBuy.price
      requires Absent(book.buys, order.id)
      requires book.buys == Refiled(origin, order.symbol, QueueOf(book.buys, order.symbol))
      requires full == Resumed(trades, Match(order, remaining, QueueOf(book.buys, order.symbol)))
      modifies book
      ensures Valid()
      ensures book.sells == old(book.sells)
      ensures Absent(book.buys, order.id)
      ensures book.buys == Refiled(origin, order.symbol, QueueOf(book.buys, order.symbol))
      ensures full == Resumed(after, Match(order, left, QueueOf(book.buys, order.symbol)))
      ensures |QueueOf(book.buys, order.symbol)| < |old(QueueOf(book.buys, order.symbol))|
        || (|QueueOf(book.buys, order.symbol)| == |old(QueueOf(book.buys, order.symbol))| && 0 <= left < remaining)
    {
      var tradeQuantity := Min(remaining, bestBuy.quantity);
      var executionPrice := bestBuy.price;
      ghost var q := QueueOf(book.buys, order.symbol);
      assert bestBuy.symbol == order.symbol && bestBuy.quantity > 0;
      after := trades + [Trade(bestBuy, order, tradeQuantity, executionPrice)];
      left := remaining - tradeQuantity;
      MatchTurn(order, full, trades, remaining, q, Trade(bestBuy, order, tradeQuantity, executionPrice), after, left, AfterTrade(q, tradeQuantity));
      ghost var before := book.buys;
      LowerBuy(bestBuy, tradeQuantity);
      assert QueueOf(book.buys, order.symbol) == AfterTrade(q, tradeQuantity);
      RefiledTwice(origin, order.symbol, q, AfterTrade(q, tradeQuantity));
      WithinKeeps(book.buys, before, order.id);
    }

    /**
     * The end of a pass: a remainder is written into the order
     * (`order.quantity = remainingQuantity`) and the order is added to its
     * own side; a filled order is not placed.
     */
    method PlaceRemainder(order: Order, remaining: int) returns (incoming: Order)
      requires Valid()
      requires Absent(book.buys, order.id) && Absent(book.sells, order.id)
      modifies book
      ensures Valid()
      ensures incoming == Remainder(order, remaining)
      ensures order.side == Buy ==>
        && book.buys == (if remaining > 0 then Placed(old(book.buys), incoming) else old(book.buys))
        && book.sells == old(book.sells)
      ensures order.side == Sell ==>
        && book.sells == (if remaining > 0 then Placed(old(book.sells), incoming) else old(book.sells))
        && book.buys == old(book.buys)
    {
      incoming := order;
      if remaining > 0 {
        incoming := order.(quantity := remaining);
        PlacedKeepsResting(book.buys, book.sells, incoming);
        book.AddOrder(incoming);
      }
    }

    /**
     * `bestSell.quantity -= tradeQuantity`, which lowers the order inside
     * the book's queue, then `removeOrder(bestSell.id)` once it is 0.
     */
    method LowerSell(bestSell: Order, tradeQuantity: int)
      requires Valid()
      requires QueueOf(book.sells, bestSell.symbol) != [] && QueueOf(book.sells, bestSell.symbol)[0] == bestSell
      requires 0 < tradeQuantity <= bestSell.quantity
      modifies book
      ensures Valid()
      ensures book.buys == old(book.buys)
      ensures book.sells == Refiled(old(book.sells), bestSell.symbol, AfterTrade(old(QueueOf(book.sells, bestSell.symbol)), tradeQuantity))
      ensures IdsWithin(book.sells, old(book.sells))
    {
      ghost var after := Refiled(book.sells, bestSell.symbol, AfterTrade(QueueOf(book.sells, bestSell.symbol), tradeQuantity));
      SellLowered(book.buys, book.sells, bestSell.symbol, tradeQuantity);
      book.sells := Decremented(book.sells, bestSell.symbol, tradeQuantity);
      if bestSell.quantity - tradeQuantity == 0 {
        var _ := book.RemoveOrder(bestSell.id);
      }
      assert book.sells == after && book.buys == old(book.buys);
    }

    /** The mirror image of LowerSell for the best BUY order. */
    method LowerBuy(bestBuy: Order, tradeQuantity: int)
      requires Valid()
      requires QueueOf(book.buys, bestBuy.symbol) != [] && QueueOf(book.buys, bestBuy.symbol)[0] == bestBuy
      requires 0 < tradeQuantity <= bestBuy.quantity
      modifies book
      ensures Valid()
      ensures book.sells == old(book.sells)
      ensures book.buys == Refiled(old(book.buys), bestBuy.symbol, AfterTrade(old(QueueOf(book.buys, bestBuy.symbol)), tradeQuantity))
      ensures IdsWithin(book.buys, old(book.buys))
    {
      ghost var after := Refiled(book.buys, bestBuy.symbol, AfterTrade(QueueOf(book.buys, bestBuy.symbol), tradeQuantity));
      BuyLowered(book.buys, book.sells, bestBuy.symbol, tradeQuantity);
      book.buys := Decremented(book.buys, bestBuy.symbol, tradeQuantity);
      if bestBuy.quantity - tradeQuantity == 0 {
        var _ := book.RemoveOrder(bestBuy.id);
      }
      assert book.buys == after && book.sells == old(book.sells);
    }

    /**
     * `executeTrade`, run to completion: an unfunded buyer aborts with
     * nothing written; otherwise balances, holdings and both legs'
     * statuses are written, and every leg whose quantity is 0 is removed
     * from the book. `buyQuantity` and `sellQuantity` are the quantities
     * the two order objects carry when the settlement reads them.
     */
    method ExecuteTrade(t: Trade, buyQuantity: int, sellQuantity: int,
                        users: UserStore, holdings: PortfolioStore, orderTable: OrderStore)
      returns (settled: bool)
      requires Valid()
      modifies book, users, holdings, orderTable
      ensures Valid()
      ensures settled == Funded(old(users.balances), t)
      ensures !settled ==>
        && users.balances == old(users.balances)
        && holdings.entries == old(holdings.entries)
        && orderTable.rows == old(orderTable.rows)
        && book.buys == old(book.buys) && book.sells == old(book.sells)
      ensures settled ==>
        && users.balances == BalancesAfter(old(users.balances), t)
        && holdings.entries == HoldingsAfter(old(holdings.entries), t)
        && orderTable.rows == StatusesAfter(old(orderTable.rows), t, buyQuantity, sellQuantity)
        && var r := Cleared(old(book.buys), old(book.sells), t, buyQuantity, sellQuantity);
           book.buys == r.buys && book.sells == r.sells
    {
      settled := SettleBalances(users, t);
      if !settled {
        return;
      }
      SettleHoldings(holdings, t);
      SettleStatuses(orderTable, t, buyQuantity, sellQuantity);
      ClearLegs(t, buyQuantity, sellQuantity);
    }

    /** The removals at the end of `executeTrade`: each leg whose quantity is 0, BUY leg first. */
    method ClearLegs(t: Trade, buyQuantity: int, sellQuantity: int)
      requires Valid()
      modifies book
      ensures Valid()
      ensures var r := Cleared(old(book.buys), old(book.sells), t, buyQuantity, sellQuantity);
        book.buys == r.buys && book.sells == r.sells
    {
      if buyQuantity == 0 {
        RemovalKeepsResting(book.buys, book.sells, t.buyOrder.id);
        var _ := book.RemoveOrder(t.buyOrder.id);
      }
      if sellQuantity == 0 {
        RemovalKeepsResting(book.buys, book.sells, t.sellOrder.id);
        var _ := book.RemoveOrder(t.sellOrder.id);
      }
    }
  }

  /**
   * The balance steps of `executeTrade`: the buyer check, which aborts
   * with nothing written, then the buyer's debit and the seller's credit
   * (read, as written, from the buyer's row). The simulator is skipped on
   * either side.
   */
  method SettleBalances(users: UserStore, t: Trade) returns (settled: bool)
    modifies users
    ensures settled == Funded(old(users.balances), t)
    ensures users.balances == if settled then BalancesAfter(old(users.balances), t) else old(users.balances)
  {
    var totalCost := t.quantity as real * t.price;
    var buyer, seller := t.buyOrder.userId, t.sellOrder.userId;
    ghost var balances := users.balances;
    ghost var debited := if buyer != SIMULATED_TRADER then Written(balances, buyer, BalanceOf(balances, buyer) - Cost(t)) else balances;
    if buyer != SIMULATED_TRADER {
      var account := users.GetUser(buyer);
      var buyerBalance := if account.Some? then account.value else 0.0;
      if buyerBalance < totalCost {
        return false;
      }
      assert account.None? ==> buyer !in balances;
      assert buyerBalance == BalanceOf(balances, buyer) && totalCost == Cost(t);
      users.UpdateUserBalance(buyer, buyerBalance - totalCost);
    }
    assert users.balances == debited;
    if seller != SIMULATED_TRADER {
      var account := users.GetUser(buyer);
      var sellerBalance := if account.Some? then account.value else 0.0;
      users.UpdateUserBalance(seller, sellerBalance + totalCost);
    }
    return true;
  }

  /** The holding upserts of `executeTrade`: the buyer gains the quantity, the seller loses it. */
  method SettleHoldings(holdings: PortfolioStore, t: Trade)
    modifies holdings
    ensures holdings.entries == HoldingsAfter(old(holdings.entries), t)
  {
    var buyer, seller := t.buyOrder.userId, t.sellOrder.userId;
    if buyer != SIMULATED_TRADER {
      holdings.UpsertPortfolioEntry(buyer, t.buyOrder.symbol, t.quantity, t.price);
    }
    if seller != SIMULATED_TRADER {
      holdings.UpsertPortfolioEntry(seller, t.sellOrder.symbol, -t.quantity, t.price);
    }
  }

  /** The status writes of `executeTrade`: FILLED for a leg at 0, PARTIALLY_FILLED otherwise. */
  method SettleStatuses(orderTable: OrderStore, t: Trade, buyQuantity: int, sellQuantity: int)
    modifies orderTable
    ensures orderTable.rows == StatusesAfter(old(orderTable.rows), t, buyQuantity, sellQuantity)
  {
    var buyOrderStatus := if buyQuantity == 0 then Filled else PartiallyFilled;
    var sellOrderStatus := if sellQuantity == 0 then Filled else PartiallyFilled;
    orderTable.UpdateOrderStatus(t.buyOrder.id, buyOrderStatus);
    orderTable.UpdateOrderStatus(t.sellOrder.id, sellOrderStatus);
  }
}
