/**
 * The in-memory order book of src/matching/orderBook.ts: for each side a
 * JavaScript `Map` from symbol to an array of resting orders, kept in
 * price-time priority by pushing and re-sorting on every insert and
 * spliced on removal by id.
 */
module Book {
  import opened Orders

  // ---------------------------------------------------------------------
  // Price-time priority
  // ---------------------------------------------------------------------

  /**
   * The comparator `addOrder` hands to `Array.prototype.sort`:
   * `b.price - a.price || a.createdAt - b.createdAt` for BUY and
   * `a.price - b.price || a.createdAt - b.createdAt` for SELL. A result
   * that is not positive lets `a` stand before `b`.
   */
  function Compare(side: Side, a: Order, b: Order): (c: real)
    ensures side == Buy ==>
      (c <= 0.0 <==> a.price > b.price || (a.price == b.price && a.createdAt <= b.createdAt))
    ensures side == Sell ==>
      (c <= 0.0 <==> a.price < b.price || (a.price == b.price && a.createdAt <= b.createdAt))
  {
    var byPrice := if side == Buy then b.price - a.price else a.price - b.price;
    if byPrice != 0.0 then byPrice else (a.createdAt - b.createdAt) as real
  }

  /** `a` may stand before `b` in a queue of the given side. */
  predicate Precedes(side: Side, a: Order, b: Order)
  {
    Compare(side, a, b) <= 0.0
  }

  /**
   * BUY queues: price descending, then `createdAt` ascending; SELL
   * queues: price ascending, then `createdAt` ascending.
   */
  ghost predicate Sorted(side: Side, q: seq<Order>)
  {
    forall i, j :: 0 <= i < j < |q| ==> Precedes(side, q[i], q[j])
  }

  // ---------------------------------------------------------------------
  // Push and stable sort
  // ---------------------------------------------------------------------

  /**
   * Where `x` lands when it is inserted into `q` after every order that
   * it does not strictly beat.
   */
  function InsertionPoint(side: Side, q: seq<Order>, x: Order): (k: nat)
    ensures k <= |q|
    ensures forall i :: 0 <= i < k ==> Precedes(side, q[i], x)
    ensures k < |q| ==> !Precedes(side, q[k], x)
    ensures Sorted(side, q) ==> forall i :: k <= i < |q| ==> !Precedes(side, q[i], x)
  {
    if q == [] then 0
    else if !Precedes(side, q[0], x) then 0
    else 1 + InsertionPoint(side, q[1..], x)
  }

  lemma InsertKeepsSorted(side: Side, q: seq<Order>, x: Order, k: nat)
    requires k == InsertionPoint(side, q, x)
    ensures Sorted(side, q) ==> Sorted(side, q[..k] + [x] + q[k..])
  {
    var r := q[..k] + [x] + q[k..];
    if Sorted(side, q) {
      forall i, j | 0 <= i < j < |r| ensures Precedes(side, r[i], r[j]) {
        if j < k {
          assert r[i] == q[i] && r[j] == q[j];
        } else if j == k {
          assert r[i] == q[i] && r[j] == x;
        } else if i < k {
          assert r[i] == q[i] && r[j] == q[j - 1];
        } else if i == k {
          assert r[i] == x && r[j] == q[j - 1];
          assert !Precedes(side, q[j - 1], x);
        } else {
          assert r[i] == q[i - 1] && r[j] == q[j - 1];
        }
      }
    }
  }

  /** Sorted insertion: `x` goes after every order it ties with or follows. */
  function Insert(side: Side, q: seq<Order>, x: Order): (r: seq<Order>)
    ensures |r| == |q| + 1
    ensures multiset(r) == multiset(q) + multiset{x}
    ensures Sorted(side, q) ==> Sorted(side, r)
  {
    var k := InsertionPoint(side, q, x);
    assert q == q[..k] + q[k..];
    InsertKeepsSorted(side, q, x, k);
    q[..k] + [x] + q[k..]
  }

  /**
   * `Array.prototype.sort` with the comparator above. The sort is stable
   * (ECMAScript 2019), so its result is the insertion sort that inserts
   * each element, in array order, after everything it does not beat.
   */
  function StableSort(side: Side, q: seq<Order>): (r: seq<Order>)
    ensures multiset(r) == multiset(q)
    ensures Sorted(side, r)
    decreases |q|
  {
    if q == [] then []
    else
      var init := q[..|q| - 1];
      assert q == init + [q[|q| - 1]];
      Insert(side, StableSort(side, init), q[|q| - 1])
  }

  /** An order that every queued order precedes goes at the back. */
  lemma InsertAfterAll(side: Side, q: seq<Order>, x: Order)
    requires forall i :: 0 <= i < |q| ==> Precedes(side, q[i], x)
    ensures Insert(side, q, x) == q + [x]
  {
    var k := InsertionPoint(side, q, x);
    assert k == |q|;
    assert q[..k] == q;
  }

  /** Sorting a sorted queue leaves it as it is. */
  lemma {:induction false} SortOfSorted(side: Side, q: seq<Order>)
    requires Sorted(side, q)
    ensures StableSort(side, q) == q
    decreases |q|
  {
    if q != [] {
      var init, last := q[..|q| - 1], q[|q| - 1];
      assert q == init + [last];
      assert Sorted(side, init);
      SortOfSorted(side, init);
      assert forall i :: 0 <= i < |init| ==> Precedes(side, init[i], last) by {
        forall i | 0 <= i < |init| ensures Precedes(side, init[i], last) {
          assert init[i] == q[i];
        }
      }
      InsertAfterAll(side, init, last);
    }
  }

  /**
   * Push-then-sort on a sorted queue is sorted insertion: the old orders
   * keep their relative order and the new order lands after every order
   * whose price and `createdAt` tie with its own.
   */
  lemma {:induction false} PushSortIsInsert(side: Side, q: seq<Order>, x: Order)
    requires Sorted(side, q)
    ensures var k := InsertionPoint(side, q, x);
      && StableSort(side, q + [x]) == Insert(side, q, x) == q[..k] + [x] + q[k..]
      && (forall i :: 0 <= i < |q| && Compare(side, q[i], x) == 0.0 ==> i < k)
  {
    assert (q + [x])[..|q|] == q;
    SortOfSorted(side, q);
  }

  // ---------------------------------------------------------------------
  // One side of the book
  // ---------------------------------------------------------------------

  /**
   * One side of the book: the `Map` of symbol to queue, with its keys in
   * insertion order (the order `for ... of` visits them).
   */
  datatype BookSide = BookSide(symbols: seq<string>, queues: map<string, seq<Order>>)

  const EmptySide := BookSide([], map[])

  ghost predicate WellFormed(b: BookSide)
  {
    && (forall i, j :: 0 <= i < j < |b.symbols| ==> b.symbols[i] != b.symbols[j])
    && (forall sym :: sym in b.queues <==> sym in b.symbols)
  }

  /** Every queue holds orders of its own symbol and side. */
  ghost predicate Filed(b: BookSide, side: Side)
  {
    forall sym, i :: sym in b.queues && 0 <= i < |b.queues[sym]| ==>
      b.queues[sym][i].symbol == sym && b.queues[sym][i].side == side
  }

  ghost predicate QueuesSorted(b: BookSide, side: Side)
  {
    forall sym :: sym in b.queues ==> Sorted(side, b.queues[sym])
  }

  /** No id is shared by two queues of the side. */
  ghost predicate Separate(b: BookSide)
  {
    forall s, t :: s in b.queues && t in b.queues && s != t ==> IdsIn(b.queues[s]) !! IdsIn(b.queues[t])
  }

  ghost predicate Absent(b: BookSide, id: int)
  {
    forall sym :: sym in b.queues ==> id !in IdsIn(b.queues[sym])
  }

  /** `side.get(symbol) || []` */
  function QueueOf(b: BookSide, symbol: string): seq<Order>
  {
    if symbol in b.queues then b.queues[symbol] else []
  }

  /**
   * The side after `addOrder(x)`: the symbol's queue is created if it is
   * missing, and `x` is placed into it by sorted insertion.
   */
  function Placed(b: BookSide, x: Order): (r: BookSide)
    ensures r.queues.Keys == b.queues.Keys + {x.symbol}
    ensures r.symbols == if x.symbol in b.queues then b.symbols else b.symbols + [x.symbol]
    ensures WellFormed(b) ==> WellFormed(r)
    ensures multiset(QueueOf(r, x.symbol)) == multiset(QueueOf(b, x.symbol)) + multiset{x}
    ensures IdsIn(QueueOf(r, x.symbol)) == IdsIn(QueueOf(b, x.symbol)) + {x.id}
    ensures forall sym :: sym != x.symbol ==> QueueOf(r, sym) == QueueOf(b, sym)
    ensures Sorted(x.side, QueueOf(b, x.symbol)) ==> Sorted(x.side, QueueOf(r, x.symbol))
  {
    var q := QueueOf(b, x.symbol);
    var r := Insert(x.side, q, x);
    InsertedIds(x.side, q, x);
    var symbols := if x.symbol in b.queues then b.symbols else b.symbols + [x.symbol];
    SetQueueKeepsWellFormed(b, x.symbol, r);
    BookSide(symbols, b.queues[x.symbol := r])
  }

  /**
   * The steps of `addOrder` on one side: a symbol seen for the first time gets an
   * empty queue, last in key order; the order is appended and the queue re-sorted.
   */
  method PlaceOnSide(side: BookSide, order: Order) returns (r: BookSide)
    requires QueuesSorted(side, order.side)
    ensures r == Placed(side, order)
  {
    PushSortIsInsert(order.side, QueueOf(side, order.symbol), order);
    var symbols := side.symbols;
    var orders := [];
    if order.symbol in side.queues {
      orders := side.queues[order.symbol];
    } else {
      symbols := symbols + [order.symbol];
    }
    orders := orders + [order];
    orders := StableSort(order.side, orders);
    r := BookSide(symbols, side.queues[order.symbol := orders]);
  }

  lemma InsertedIds(side: Side, q: seq<Order>, x: Order)
    ensures IdsIn(Insert(side, q, x)) == IdsIn(q) + {x.id}
  {
    var r := Insert(side, q, x);
    assert forall o :: o in r <==> o in multiset(r);
  }

  /** Filing a queue under a symbol, appending the symbol when it is new, keeps a side well formed. */
  lemma SetQueueKeepsWellFormed(b: BookSide, sym: string, q: seq<Order>)
    ensures WellFormed(b) ==> WellFormed(BookSide(if sym in b.queues then b.symbols else b.symbols + [sym], b.queues[sym := q]))
  {
  }

  // ---------------------------------------------------------------------
  // Finding and removing by id
  // ---------------------------------------------------------------------

  /** `orders.findIndex(order => order.id === id)`: the first index holding `id`, or -1. */
  function IndexOf(q: seq<Order>, id: int): (r: int)
    ensures -1 <= r < |q|
    ensures r == -1 <==> id !in IdsIn(q)
    ensures r >= 0 ==> q[r].id == id && forall j :: 0 <= j < r ==> q[j].id != id
  {
    if q == [] then -1
    else if q[0].id == id then
      assert q[0] in q;
      0
    else
      var r := IndexOf(q[1..], id);
      assert forall o :: o in q ==> o == q[0] || o in q[1..];
      assert r >= 0 ==> q[1..][r] in q;
      if r == -1 then -1 else r + 1
  }

  /** The `findIndex` scan itself. */
  method FindIndex(q: seq<Order>, id: int) returns (index: int)
    ensures index == IndexOf(q, id)
  {
    index := 0;
    while index < |q| && q[index].id != id
      invariant 0 <= index <= |q|
      invariant forall j :: 0 <= j < index ==> q[j].id != id
    {
      index := index + 1;
    }
    if index == |q| {
      index := -1;
    } else {
      assert q[index] in q;
    }
  }

  /** Where `removeOrder` finds an id: the rank of the symbol in key order and the index in its queue. */
  datatype Location = Location(rank: nat, index: nat)

  /** The first key, from rank `k` on, whose queue holds `id`, and the first index in it. */
  function FindFrom(b: BookSide, id: int, k: nat): (r: Option<Location>)
    requires k <= |b.symbols|
    ensures r.None? <==> forall j :: k <= j < |b.symbols| ==> id !in IdsIn(QueueOf(b, b.symbols[j]))
    ensures r.Some? ==>
      && k <= r.value.rank < |b.symbols|
      && (forall j :: k <= j < r.value.rank ==> id !in IdsIn(QueueOf(b, b.symbols[j])))
      && r.value.index as int == IndexOf(QueueOf(b, b.symbols[r.value.rank]), id)
    decreases |b.symbols| - k
  {
    if k == |b.symbols| then None
    else
      var i := IndexOf(QueueOf(b, b.symbols[k]), id);
      if i != -1 then Some(Location(k, i)) else FindFrom(b, id, k + 1)
  }

  /** The `for (const [symbol, orders] of side)` scan of `removeOrder`. */
  method FindInSide(b: BookSide, id: int) returns (loc: Option<Location>)
    ensures loc == FindFrom(b, id, 0)
  {
    var k := 0;
    while k < |b.symbols|
      invariant 0 <= k <= |b.symbols|
      invariant FindFrom(b, id, k) == FindFrom(b, id, 0)
    {
      var index := FindIndex(QueueOf(b, b.symbols[k]), id);
      if index != -1 {
        return Some(Location(k, index));
      }
      k := k + 1;
    }
    return None;
  }

  /** `orders.splice(i, 1)` */
  function RemoveAt(q: seq<Order>, i: nat): (r: seq<Order>)
    requires i < |q|
    ensures multiset(r) == multiset(q) - multiset{q[i]}
    ensures IdsIn(r) <= IdsIn(q)
    ensures forall side :: Sorted(side, q) ==> Sorted(side, r)
  {
    var r := q[..i] + q[i + 1..];
    SpliceContents(q, i);
    forall side | Sorted(side, q) ensures Sorted(side, r) {
      SpliceSorted(side, q, i);
    }
    r
  }

  lemma SpliceContents(q: seq<Order>, i: nat)
    requires i < |q|
    ensures multiset(q[..i] + q[i + 1..]) == multiset(q) - multiset{q[i]}
    ensures IdsIn(q[..i] + q[i + 1..]) <= IdsIn(q)
  {
    assert q == q[..i] + [q[i]] + q[i + 1..];
    var r := q[..i] + q[i + 1..];
    assert forall o :: o in r ==> o in q;
  }

  lemma SpliceSorted(side: Side, q: seq<Order>, i: nat)
    requires i < |q| && Sorted(side, q)
    ensures Sorted(side, q[..i] + q[i + 1..])
  {
    var r := q[..i] + q[i + 1..];
    forall a, c | 0 <= a < c < |r| ensures Precedes(side, r[a], r[c]) {
      var a' := if a < i then a else a + 1;
      var c' := if c < i then c else c + 1;
      assert r[a] == q[a'] && r[c] == q[c'];
    }
  }

  /** The side with the entry at `loc` spliced out; every other queue is untouched. */
  function Without(b: BookSide, loc: Location): (r: BookSide)
    requires loc.rank < |b.symbols|
    requires loc.index < |QueueOf(b, b.symbols[loc.rank])|
    ensures r.symbols == b.symbols && r.queues.Keys == b.queues.Keys
    ensures QueueOf(r, b.symbols[loc.rank]) == RemoveAt(QueueOf(b, b.symbols[loc.rank]), loc.index)
    ensures forall sym :: sym != b.symbols[loc.rank] ==> QueueOf(r, sym) == QueueOf(b, sym)
  {
    var sym := b.symbols[loc.rank];
    b.(queues := b.queues[sym := RemoveAt(b.queues[sym], loc.index)])
  }

  /**
   * `r` is `b` after the splice of `removeOrder`: the first queue in key
   * order that holds `id` loses the order at the first index holding it,
   * and every other queue and the key order stay as they were.
   */
  ghost predicate SplicedFirst(b: BookSide, r: BookSide, id: int)
  {
    var loc := FindFrom(b, id, 0);
    && loc.Some?
    && var sym := b.symbols[loc.value.rank];
       var q := QueueOf(b, sym);
       && loc.value.index < |q|
       && q[loc.value.index].id == id
       && r.symbols == b.symbols
       && QueueOf(r, sym) == RemoveAt(q, loc.value.index)
       && (forall s :: s != sym ==> QueueOf(r, s) == QueueOf(b, s))
  }

  /** What `removeOrder(id)` returns and leaves behind. */
  datatype Removal = Removal(found: bool, buys: BookSide, sells: BookSide)

  /**
   * `removeOrder(id)`: the first match scanning every BUY queue in key
   * order, then every SELL queue, is spliced out and `true` returned;
   * with no match nothing changes and `false` is returned.
   */
  function RemoveById(buys: BookSide, sells: BookSide, id: int): (r: Removal)
    requires WellFormed(buys) && WellFormed(sells)
    ensures r.found <==> !(Absent(buys, id) && Absent(sells, id))
    ensures !r.found ==> r.buys == buys && r.sells == sells
    ensures !Absent(buys, id) ==> r.sells == sells
    ensures Absent(buys, id) ==> r.buys == buys
    ensures WellFormed(r.buys) && WellFormed(r.sells)
  {
    match FindFrom(buys, id, 0)
    case Some(loc) => Removal(true, Without(buys, loc), sells)
    case None =>
      AbsentWhenNotFound(buys, id);
      match FindFrom(sells, id, 0)
      case Some(loc) =>
        assert id in IdsIn(QueueOf(sells, sells.symbols[loc.rank]));
        Removal(true, buys, Without(sells, loc))
      case None =>
        AbsentWhenNotFound(sells, id);
        Removal(false, buys, sells)
  }

  /**
   * What `removeOrder` takes out: when a BUY queue holds the id, the first
   * such queue in key order loses the order at the id's first index and
   * nothing else on that side changes; otherwise the same on the SELL side.
   */
  lemma RemoveByIdSplicesFirst(buys: BookSide, sells: BookSide, id: int)
    requires WellFormed(buys) && WellFormed(sells)
    ensures var r := RemoveById(buys, sells, id);
      && (!Absent(buys, id) ==> SplicedFirst(buys, r.buys, id) && r.sells == sells)
      && (Absent(buys, id) && !Absent(sells, id) ==> SplicedFirst(sells, r.sells, id) && r.buys == buys)
  {
    AbsentWhenNotFound(buys, id);
    AbsentWhenNotFound(sells, id);
  }

  lemma AbsentWhenNotFound(b: BookSide, id: int)
    requires WellFormed(b)
    ensures FindFrom(b, id, 0).None? <==> Absent(b, id)
  {
    if FindFrom(b, id, 0).None? {
      forall sym | sym in b.queues ensures id !in IdsIn(b.queues[sym]) {
        var j :| 0 <= j < |b.symbols| && b.symbols[j] == sym;
      }
    } else {
      var loc := FindFrom(b, id, 0).value;
      assert id in IdsIn(QueueOf(b, b.symbols[loc.rank]));
    }
  }

  /**
   * When only the queue of `sym` holds `id`, the scan stops at that
   * queue, at the first index holding `id`.
   */
  lemma {:induction false} FoundInOnlyQueue(b: BookSide, id: int, sym: string)
    requires WellFormed(b)
    requires sym in b.queues && id in IdsIn(b.queues[sym])
    requires forall s :: s in b.queues && s != sym ==> id !in IdsIn(b.queues[s])
    ensures var r := FindFrom(b, id, 0);
      r.Some? && b.symbols[r.value.rank] == sym && r.value.index as int == IndexOf(b.queues[sym], id)
  {
    var p :| 0 <= p < |b.symbols| && b.symbols[p] == sym;
    assert id in IdsIn(QueueOf(b, b.symbols[p]));
    var loc := FindFrom(b, id, 0).value;
    var found := b.symbols[loc.rank];
    assert id in IdsIn(QueueOf(b, found));
  }

  lemma SpliceInserted(q: seq<Order>, x: Order, k: nat)
    requires k <= |q| && x.id !in IdsIn(q)
    ensures var q' := q[..k] + [x] + q[k..];
      IndexOf(q', x.id) == k && RemoveAt(q', k) == q
  {
    var q' := q[..k] + [x] + q[k..];
    assert forall j :: 0 <= j < k ==> q'[j] == q[j] && q[j] in q;
    assert q'[k] == x;
    assert q'[..k] == q[..k];
    assert q'[k + 1..] == q[k..];
    assert q[..k] + q[k..] == q;
  }

  /** After placing an order with a fresh id, the scan finds that id in the order's own queue. */
  lemma PlacedIsFound(b: BookSide, x: Order)
    requires WellFormed(b) && Absent(b, x.id)
    ensures var p := Placed(b, x);
      var f := FindFrom(p, x.id, 0);
      f.Some? && p.symbols[f.value.rank] == x.symbol
        && f.value.index as int == IndexOf(QueueOf(p, x.symbol), x.id)
  {
    var p := Placed(b, x);
    assert forall s :: s in p.queues && s != x.symbol ==> x.id !in IdsIn(p.queues[s]) by {
      forall s | s in p.queues && s != x.symbol ensures x.id !in IdsIn(p.queues[s]) {
        assert p.queues[s] == QueueOf(b, s);
      }
    }
    FoundInOnlyQueue(p, x.id, x.symbol);
  }

  /** Placing an order with a fresh id and splicing that id out again restores every queue. */
  lemma {:induction false} PlaceThenSplice(b: BookSide, x: Order)
    requires WellFormed(b) && QueuesSorted(b, x.side) && Absent(b, x.id)
    ensures var p := Placed(b, x);
      var f := FindFrom(p, x.id, 0);
      && f.Some? && f.value.rank < |p.symbols| && f.value.index < |QueueOf(p, p.symbols[f.value.rank])|
      && (forall sym :: QueueOf(Without(p, f.value), sym) == QueueOf(b, sym))
      && (x.symbol in b.queues ==> Without(p, f.value) == b)
  {
    var p := Placed(b, x);
    var q := QueueOf(b, x.symbol);
    var k := InsertionPoint(x.side, q, x);
    var q' := q[..k] + [x] + q[k..];
    assert QueueOf(p, x.symbol) == q';
    SpliceInserted(q, x, k);
    PlacedIsFound(b, x);
    var loc := FindFrom(p, x.id, 0).value;
    assert p.symbols[loc.rank] == x.symbol && loc.index == k;
    SpliceRestores(b, p, loc, x.symbol, q');
  }

  /**
   * Splicing out of a side whose queue for `sym` was replaced by `q'` the
   * entry that gives back the original queue restores the original side.
   */
  lemma SpliceRestores(b: BookSide, p: BookSide, loc: Location, sym: string, q': seq<Order>)
    requires p.queues == b.queues[sym := q']
    requires sym in b.queues ==> p.symbols == b.symbols
    requires loc.rank < |p.symbols| && p.symbols[loc.rank] == sym && loc.index < |q'|
    requires RemoveAt(q', loc.index) == QueueOf(b, sym)
    ensures forall s :: QueueOf(Without(p, loc), s) == QueueOf(b, s)
    ensures sym in b.queues ==> Without(p, loc) == b
  {
    var w := Without(p, loc);
    assert w.queues == b.queues[sym := q'][sym := QueueOf(b, sym)];
    if sym in b.queues {
      MapRestored(b.queues, sym, q');
    }
  }

  lemma MapRestored(m: map<string, seq<Order>>, key: string, v: seq<Order>)
    requires key in m
    ensures m[key := v][key := m[key]] == m
  {
  }

  /**
   * `addOrder` of an order whose id is nowhere in the book, then
   * `removeOrder` of that id, leaves every queue as it was; only a symbol
   * that the insert created stays behind, with an empty queue.
   */
  lemma {:induction false} InsertThenRemove(b: BookSide, other: BookSide, x: Order)
    requires WellFormed(b) && WellFormed(other) && QueuesSorted(b, x.side)
    requires Absent(b, x.id) && Absent(other, x.id)
    ensures x.side == Buy ==>
      var r := RemoveById(Placed(b, x), other, x.id);
      r.found && r.sells == other && (forall sym :: QueueOf(r.buys, sym) == QueueOf(b, sym))
        && (x.symbol in b.queues ==> r.buys == b)
    ensures x.side == Sell ==>
      var r := RemoveById(other, Placed(b, x), x.id);
      r.found && r.buys == other && (forall sym :: QueueOf(r.sells, sym) == QueueOf(b, sym))
        && (x.symbol in b.queues ==> r.sells == b)
  {
    PlaceThenSplice(b, x);
    if x.side == Sell {
      AbsentWhenNotFound(other, x.id);
    }
  }

  lemma PlacedKeepsInvariants(b: BookSide, x: Order)
    requires WellFormed(b) && Filed(b, x.side) && QueuesSorted(b, x.side)
    ensures var r := Placed(b, x);
      WellFormed(r) && Filed(r, x.side) && QueuesSorted(r, x.side)
  {
    PlacedKeepsFiled(b, x);
    PlacedKeepsSorted(b, x);
  }

  lemma PlacedKeepsFiled(b: BookSide, x: Order)
    requires WellFormed(b) && Filed(b, x.side)
    ensures Filed(Placed(b, x), x.side)
  {
    var r := Placed(b, x);
    var q := QueueOf(r, x.symbol);
    assert forall o :: o in q ==> o in QueueOf(b, x.symbol) || o == x by {
      forall o | o in q ensures o in QueueOf(b, x.symbol) || o == x {
        assert o in multiset(q);
      }
    }
    forall sym, i | sym in r.queues && 0 <= i < |r.queues[sym]|
      ensures r.queues[sym][i].symbol == sym && r.queues[sym][i].side == x.side
    {
      if sym == x.symbol {
        assert r.queues[sym][i] in q;
      } else {
        assert r.queues[sym] == b.queues[sym];
      }
    }
  }

  lemma PlacedKeepsSorted(b: BookSide, x: Order)
    requires WellFormed(b) && QueuesSorted(b, x.side)
    ensures QueuesSorted(Placed(b, x), x.side)
  {
    var r := Placed(b, x);
    forall sym | sym in r.queues ensures Sorted(x.side, r.queues[sym]) {
      if sym != x.symbol {
        assert r.queues[sym] == b.queues[sym];
      }
    }
  }

  lemma WithoutKeepsInvariants(b: BookSide, loc: Location, side: Side)
    requires WellFormed(b) && Filed(b, side) && QueuesSorted(b, side)
    requires loc.rank < |b.symbols| && loc.index < |QueueOf(b, b.symbols[loc.rank])|
    ensures var r := Without(b, loc);
      WellFormed(r) && Filed(r, side) && QueuesSorted(r, side)
  {
    var r := Without(b, loc);
    var sym := b.symbols[loc.rank];
    var q := QueueOf(b, sym);
    assert forall o :: o in QueueOf(r, sym) ==> o in q by {
      forall o | o in QueueOf(r, sym) ensures o in q {
        assert o in multiset(QueueOf(r, sym));
      }
    }
    forall s, i | s in r.queues && 0 <= i < |r.queues[s]|
      ensures r.queues[s][i].symbol == s && r.queues[s][i].side == side
    {
      if s == sym {
        assert r.queues[s][i] in q;
      } else {
        assert r.queues[s] == b.queues[s];
      }
    }
  }

  // ---------------------------------------------------------------------
  // The OrderBook class
  // ---------------------------------------------------------------------

  class OrderBook {
    var buys: BookSide
    var sells: BookSide

    ghost predicate Valid()
      reads this
    {
      && WellFormed(buys) && WellFormed(sells)
      && Filed(buys, Buy) && Filed(sells, Sell)
      && QueuesSorted(buys, Buy) && QueuesSorted(sells, Sell)
    }

    constructor ()
      ensures Valid()
      ensures buys == EmptySide && sells == EmptySide
    {
      buys := EmptySide;
      sells := EmptySide;
    }

    /**
     * Pushes the order onto its symbol's queue on its own side and
     * re-sorts that queue; the other side and other symbols' queues are
     * untouched.
     */
    method AddOrder(order: Order)
      requires Valid()
      modifies this
      ensures Valid()
      ensures order.side == Buy ==> buys == Placed(old(buys), order) && sells == old(sells)
      ensures order.side == Sell ==> sells == Placed(old(sells), order) && buys == old(buys)
    {
      var side := if order.side == Buy then buys else sells;
      PlacedKeepsInvariants(side, order);
      side := PlaceOnSide(side, order);
      if order.side == Buy {
        buys := side;
      } else {
        sells := side;
      }
    }

    /** Splices out the first order with this id (BUY side first) and says whether there was one. */
    method RemoveOrder(id: int) returns (removed: bool)
      requires Valid()
      modifies this
      ensures Valid()
      ensures Removal(removed, buys, sells) == RemoveById(old(buys), old(sells), id)
    {
      var loc := FindInSide(buys, id);
      if loc.Some? {
        WithoutKeepsInvariants(buys, loc.value, Buy);
        buys := Without(buys, loc.value);
        return true;
      }
      loc := FindInSide(sells, id);
      if loc.Some? {
        WithoutKeepsInvariants(sells, loc.value, Sell);
        sells := Without(sells, loc.value);
        return true;
      }
      return false;
    }

    /** The queue of BUY orders for the symbol, or an empty one for an unknown symbol. */
    function GetBuyOrders(symbol: string): (r: seq<Order>)
      reads this
      requires Valid()
      ensures Sorted(Buy, r)
      ensures forall o :: o in r ==> o.symbol == symbol && o.side == Buy
      ensures symbol in buys.queues ==> r == buys.queues[symbol]
      ensures symbol !in buys.queues ==> r == []
    {
      QueueOf(buys, symbol)
    }

    /** The queue of SELL orders for the symbol, or an empty one for an unknown symbol. */
    function GetSellOrders(symbol: string): (r: seq<Order>)
      reads this
      requires Valid()
      ensures Sorted(Sell, r)
      ensures forall o :: o in r ==> o.symbol == symbol && o.side == Sell
      ensures symbol in sells.queues ==> r == sells.queues[symbol]
      ensures symbol !in sells.queues ==> r == []
    {
      QueueOf(sells, symbol)
    }

    /** The best bid: the highest-priced BUY order, earliest among equal prices; none when there is none. */
    function GetBestBuy(symbol: string): (r: Option<Order>)
      reads this
      requires Valid()
      ensures r.None? <==> GetBuyOrders(symbol) == []
      ensures r.Some? ==> r.value == GetBuyOrders(symbol)[0]
      ensures r.Some? ==> forall o :: o in GetBuyOrders(symbol) ==>
        o.price < r.value.price || (o.price == r.value.price && r.value.createdAt <= o.createdAt)
    {
      var q := QueueOf(buys, symbol);
      if q == [] then None
      else
        assert forall o :: o in q ==> o == q[0] || Precedes(Buy, q[0], o);
        Some(q[0])
    }

    /** The best ask: the lowest-priced SELL order, earliest among equal prices; none when there is none. */
    function GetBestSell(symbol: string): (r: Option<Order>)
      reads this
      requires Valid()
      ensures r.None? <==> GetSellOrders(symbol) == []
      ensures r.Some? ==> r.value == GetSellOrders(symbol)[0]
      ensures r.Some? ==> forall o :: o in GetSellOrders(symbol) ==>
        o.price > r.value.price || (o.price == r.value.price && r.value.createdAt <= o.createdAt)
    {
      var q := QueueOf(sells, symbol);
      if q == [] then None
      else
        assert forall o :: o in q ==> o == q[0] || Precedes(Sell, q[0], o);
        Some(q[0])
    }
  }
}
