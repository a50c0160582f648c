/** One side of a limit order book: price levels, best first, each a queue of orders. */
module BookSide {

  datatype Side = Buy | Sell

  /** `node` names the list node that holds the order; no two orders ever share one. */
  datatype Order = Order(id: nat, side: Side, price: real, volume: nat, node: nat)

  datatype Level = Level(price: real, orders: seq<Order>)

  predicate Better(side: Side, p: real, q: real) { if side.Buy? then p > q else p < q }

  /** Levels are never empty, hold orders of their price and side, and come best price first. */
  ghost predicate Sorted(side: Side, levels: seq<Level>) {
    && (forall i :: 0 <= i < |levels| ==> LevelOk(side, levels[i]))
    && (forall i, j {:trigger Better(side, levels[i].price, levels[j].price)} ::
          0 <= i < j < |levels| ==> Better(side, levels[i].price, levels[j].price))
  }

  ghost predicate LevelOk(side: Side, level: Level) {
    level.orders != [] && forall o :: o in level.orders ==> o.price == level.price && o.side == side
  }

  /** Cutting a concatenation inside its second part. */
  lemma {:induction false} Cut(a: seq<Order>, b: seq<Order>, k: nat)
    requires k <= |b|
    ensures (a + b)[..|a| + k] == a + b[..k] && (a + b)[|a| + k..] == b[k..]
  {
  }

  /** Taking an element out of the first part. */
  lemma {:induction false} CutFirst(a: seq<Order>, b: seq<Order>, i: nat)
    requires i < |a|
    ensures (a + b)[..i] + (a + b)[i + 1..] == (a[..i] + a[i + 1..]) + b
  {
  }

  /** All orders of the side in price-time order. */
  ghost function Flat(levels: seq<Level>): seq<Order> {
    if levels == [] then [] else levels[0].orders + Flat(levels[1..])
  }

  function Volume(q: seq<Order>): nat {
    if q == [] then 0 else q[0].volume + Volume(q[1..])
  }

  // ---- Adding an order ----

  /** The order goes to the end of its price level, which is made when it is missing. */
  function Add(side: Side, levels: seq<Level>, o: Order): seq<Level> {
    if levels == [] || Better(side, o.price, levels[0].price) then [Level(o.price, [o])] + levels
    else if levels[0].price == o.price then [Level(o.price, levels[0].orders + [o])] + levels[1..]
    else [levels[0]] + Add(side, levels[1..], o)
  }

  /** Everything before position p is at least as good as the price, everything from p on is worse. */
  ghost predicate Behind(side: Side, q: seq<Order>, price: real, p: nat) {
    && p <= |q|
    && (forall i :: 0 <= i < p ==> !Better(side, price, q[i].price))
    && (forall i :: p <= i < |q| ==> Better(side, price, q[i].price))
  }

  lemma {:induction false} AddedPrices(side: Side, levels: seq<Level>, o: Order)
    ensures Add(side, levels, o) != []
    ensures forall i :: 0 <= i < |Add(side, levels, o)| ==>
              (Add(side, levels, o)[i].price == o.price
               || exists j :: 0 <= j < |levels| && Add(side, levels, o)[i].price == levels[j].price)
  {
    if levels != [] && !Better(side, o.price, levels[0].price) && levels[0].price != o.price {
      AddedPrices(side, levels[1..], o);
      var rest, r := levels[1..], Add(side, levels, o);
      assert r == [levels[0]] + Add(side, rest, o);
      forall i | 0 <= i < |r|
        ensures r[i].price == o.price || exists j :: 0 <= j < |levels| && r[i].price == levels[j].price
      {
        if i > 0 && r[i].price != o.price {
          var j :| 0 <= j < |rest| && Add(side, rest, o)[i - 1].price == rest[j].price;
          assert levels[j + 1].price == r[i].price;
        }
      }
    }
  }

  lemma {:induction false} AddSorted(side: Side, levels: seq<Level>, o: Order)
    requires Sorted(side, levels) && o.side == side
    ensures Sorted(side, Add(side, levels, o))
  {
    if levels == [] {
    } else if Better(side, o.price, levels[0].price) {
      AddFront(side, levels, Level(o.price, [o]));
    } else if levels[0].price == o.price {
      SortedHead(side, levels, levels[0].orders + [o]);
    } else {
      var rest := levels[1..];
      SortedTail(side, levels);
      AddSorted(side, rest, o);
      AddedPrices(side, rest, o);
      var rest' := Add(side, rest, o);
      forall j | 0 <= j < |rest'| ensures Better(side, levels[0].price, rest'[j].price) {
        if rest'[j].price != o.price {
          var m :| 0 <= m < |rest| && rest'[j].price == rest[m].price;
          assert Better(side, levels[0].price, levels[m + 1].price);
        }
      }
      PutFront(side, levels[0], rest');
    }
  }

  lemma {:induction false} PutFront(side: Side, first: Level, rest: seq<Level>)
    requires LevelOk(side, first) && Sorted(side, rest)
    requires forall j :: 0 <= j < |rest| ==> Better(side, first.price, rest[j].price)
    ensures Sorted(side, [first] + rest)
  {
    var r := [first] + rest;
    forall i, j | 0 <= i < j < |r| ensures Better(side, r[i].price, r[j].price) {
      if i > 0 {
        assert Better(side, rest[i - 1].price, rest[j - 1].price);
      }
    }
  }

  lemma {:induction false} AddFront(side: Side, levels: seq<Level>, first: Level)
    requires Sorted(side, levels) && levels != [] && LevelOk(side, first) && Better(side, first.price, levels[0].price)
    ensures Sorted(side, [first] + levels)
  {
    forall j | 0 <= j < |levels| ensures Better(side, first.price, levels[j].price) {
      assert j > 0 ==> Better(side, levels[0].price, levels[j].price);
    }
    PutFront(side, first, levels);
  }

  /** An added order queues behind all orders of a price at least as good and before all worse ones. */
  lemma {:induction false} AddQueues(side: Side, levels: seq<Level>, o: Order) returns (p: nat)
    requires Sorted(side, levels) && o.side == side
    ensures Behind(side, Flat(levels), o.price, p)
    ensures Flat(Add(side, levels, o)) == Flat(levels)[..p] + [o] + Flat(levels)[p..]
  {
    if levels == [] {
      p := 0;
    } else if Better(side, o.price, levels[0].price) {
      p := 0;
      AddFirst(side, levels, o, Flat(levels));
    } else if levels[0].price == o.price {
      p := |levels[0].orders|;
      AddToBest(side, levels, o, Flat(levels), p);
    } else {
      hide Better;
      var q, rest := Flat(levels), levels[1..];
      SortedTail(side, levels);
      var p' := AddQueues(side, rest, o);
      p := |levels[0].orders| + p';
      FrontPrices(side, levels, q);
      BehindFront(side, levels[0].price, levels[0].orders, Flat(rest), o.price, p', q);
      AddBehind(levels[0], Flat(rest), o, p', Add(side, rest, o));
    }
  }

  lemma {:induction false} AddFirst(side: Side, levels: seq<Level>, o: Order, q: seq<Order>)
    requires Sorted(side, levels) && levels != [] && q == Flat(levels) && Better(side, o.price, levels[0].price)
    ensures Behind(side, q, o.price, 0) && Flat([Level(o.price, [o])] + levels) == q[..0] + [o] + q[0..]
  {
    Worse(side, levels, Flat(levels[1..]));
    FrontPrices(side, levels, q);
    assert ([Level(o.price, [o])] + levels)[1..] == levels;
  }

  lemma {:induction false} AddToBest(side: Side, levels: seq<Level>, o: Order, q: seq<Order>, p: nat)
    requires Sorted(side, levels) && levels != [] && q == Flat(levels) && p == |levels[0].orders|
    requires levels[0].price == o.price
    ensures Behind(side, q, o.price, p)
    ensures Flat([Level(o.price, levels[0].orders + [o])] + levels[1..]) == q[..p] + [o] + q[p..]
  {
    var rest := levels[1..];
    Worse(side, levels, Flat(rest));
    FrontPrices(side, levels, q);
    assert ([Level(o.price, levels[0].orders + [o])] + rest)[1..] == rest;
    assert q[p..] == Flat(rest) && q[..p] == levels[0].orders;
  }

  lemma {:induction false} AddBehind(first: Level, rest: seq<Order>, o: Order, p': nat, rest': seq<Level>)
    requires p' <= |rest| && Flat(rest') == rest[..p'] + [o] + rest[p'..]
    ensures var q, p := first.orders + rest, |first.orders| + p';
            Flat([first] + rest') == q[..p] + [o] + q[p..]
  {
    var os := first.orders;
    assert ([first] + rest')[1..] == rest';
    Cut(os, rest, p');
    assert os + (rest[..p'] + [o] + rest[p'..]) == (os + rest[..p']) + [o] + rest[p'..];
  }

  lemma {:induction false} BehindFront(side: Side, best: real, os: seq<Order>, rest: seq<Order>, price: real, p: nat,
                                       q: seq<Order>)
    requires q == os + rest && !Better(side, price, best) && Behind(side, rest, price, p)
    requires forall i :: 0 <= i < |os| ==> q[i].price == best
    ensures Behind(side, q, price, |os| + p)
  {
    forall i | |os| <= i < |q| ensures q[i] == rest[i - |os|] {
    }
  }

  lemma {:induction false} FrontPrices(side: Side, levels: seq<Level>, q: seq<Order>)
    requires Sorted(side, levels) && levels != [] && q == Flat(levels)
    ensures forall i :: 0 <= i < |levels[0].orders| ==> q[i].price == levels[0].price
    ensures forall i :: |levels[0].orders| <= i < |q| ==> q[i] == Flat(levels[1..])[i - |levels[0].orders|]
  {
    forall i | 0 <= i < |levels[0].orders| ensures q[i].price == levels[0].price {
      assert q[i] == levels[0].orders[i] && levels[0].orders[i] in levels[0].orders;
    }
  }

  /** Everything behind the best level is priced worse. */
  lemma {:induction false} Worse(side: Side, levels: seq<Level>, q: seq<Order>)
    requires Sorted(side, levels) && levels != [] && q == Flat(levels[1..])
    ensures forall i :: 0 <= i < |q| ==> Better(side, levels[0].price, q[i].price)
    decreases |levels|
  {
    var rest := levels[1..];
    if rest != [] {
      assert Better(side, levels[0].price, levels[1].price);
      SortedTail(side, levels);
      Worse(side, rest, Flat(rest[1..]));
      FrontPrices(side, rest, q);
    }
  }

  lemma {:induction false} FlatSides(side: Side, levels: seq<Level>)
    requires forall i :: 0 <= i < |levels| ==> LevelOk(side, levels[i])
    ensures forall o :: o in Flat(levels) ==> o.side == side
  {
    if levels != [] {
      FlatSides(side, levels[1..]);
    }
  }

  // ---- Trading with the front order ----

  /** The front order loses t; when nothing is left it goes, and so does its level when it was the last. */
  function Fill(levels: seq<Level>, t: nat): seq<Level>
    requires levels != [] && levels[0].orders != [] && t <= levels[0].orders[0].volume
  {
    var o, rest := levels[0].orders[0], levels[0].orders[1..];
    if o.volume > t then [Level(levels[0].price, [o.(volume := o.volume - t)] + rest)] + levels[1..]
    else if rest == [] then levels[1..]
    else [Level(levels[0].price, rest)] + levels[1..]
  }

  /** The same on the queue. */
  ghost function Filled(q: seq<Order>, t: nat): seq<Order>
    requires q != [] && t <= q[0].volume
  {
    if q[0].volume > t then [q[0].(volume := q[0].volume - t)] + q[1..] else q[1..]
  }

  lemma {:induction false} FillFills(levels: seq<Level>, t: nat)
    requires levels != [] && levels[0].orders != [] && t <= levels[0].orders[0].volume
    ensures Flat(levels) != [] && Flat(levels)[0] == levels[0].orders[0]
    ensures Flat(Fill(levels, t)) == Filled(Flat(levels), t)
  {
    var os, rest := levels[0].orders, levels[1..];
    var q := Flat(levels);
    assert q[1..] == os[1..] + Flat(rest);
    var o := os[0];
    if o.volume > t {
      var os' := [o.(volume := o.volume - t)] + os[1..];
      assert ([Level(levels[0].price, os')] + rest)[1..] == rest;
      assert os' + Flat(rest) == [o.(volume := o.volume - t)] + q[1..];
    } else if os[1..] == [] {
      assert q[1..] == Flat(rest);
    } else {
      assert ([Level(levels[0].price, os[1..])] + rest)[1..] == rest;
    }
  }

  lemma {:induction false} FillSorted(side: Side, levels: seq<Level>, t: nat)
    requires Sorted(side, levels) && levels != [] && t <= levels[0].orders[0].volume
    ensures Sorted(side, Fill(levels, t))
  {
    hide Better;
    var os, rest := levels[0].orders, levels[1..];
    var o := os[0];
    SortedTail(side, levels);
    if o.volume > t {
      SortedHead(side, levels, [o.(volume := o.volume - t)] + os[1..]);
    } else if os[1..] != [] {
      SortedHead(side, levels, os[1..]);
    }
  }

  lemma {:induction false} SortedTail(side: Side, levels: seq<Level>)
    requires Sorted(side, levels) && levels != []
    ensures Sorted(side, levels[1..])
  {
    var rest := levels[1..];
    forall i, j | 0 <= i < j < |rest| ensures Better(side, rest[i].price, rest[j].price) {
      assert Better(side, levels[i + 1].price, levels[j + 1].price);
    }
  }

  /** The orders of the best level may change as long as the level stays in order. */
  lemma {:induction false} SortedHead(side: Side, levels: seq<Level>, os: seq<Order>)
    requires Sorted(side, levels) && levels != [] && LevelOk(side, Level(levels[0].price, os))
    ensures Sorted(side, [Level(levels[0].price, os)] + levels[1..])
  {
    var r := [Level(levels[0].price, os)] + levels[1..];
    forall i, j | 0 <= i < j < |r| ensures Better(side, r[i].price, r[j].price) {
      assert Better(side, levels[i].price, levels[j].price);
    }
  }

  lemma {:induction false} FilledVolume(q: seq<Order>, t: nat)
    requires q != [] && t <= q[0].volume
    ensures Volume(Filled(q, t)) == Volume(q) - t
  {
    if q[0].volume > t {
      assert Filled(q, t)[1..] == q[1..];
    }
  }

  /** Orders leave in price-time order: q' is q without its first orders, and with the next one perhaps
      partly filled. */
  ghost predicate Consumed(q: seq<Order>, q': seq<Order>) {
    && |q'| <= |q|
    && (q' != [] ==>
        var o := q[|q| - |q'|];
        && q'[0] == o.(volume := q'[0].volume) && q'[0].volume <= o.volume
        && q'[1..] == q[|q| - |q'| + 1..])
  }

  lemma {:induction false} FilledConsumes(q: seq<Order>, r: seq<Order>, t: nat)
    requires Consumed(q, r) && r != [] && t <= r[0].volume
    ensures Consumed(q, Filled(r, t))
  {
    var k := |q| - |r|;
    if r[0].volume > t {
      assert Filled(r, t)[1..] == r[1..];
    } else if r[1..] != [] {
      assert q[k + 1..][1..] == q[k + 2..];
      assert r[1..][0] == q[k + 1..][0];
    }
  }

  // ---- Cancelling an order ----

  function RemoveNode(os: seq<Order>, node: nat): seq<Order> {
    if os == [] then [] else if os[0].node == node then os[1..] else [os[0]] + RemoveNode(os[1..], node)
  }

  /** The order leaves its level, and the level goes when it was the last. */
  function Remove(levels: seq<Level>, price: real, node: nat): seq<Level> {
    if levels == [] then []
    else if levels[0].price == price then
      var os := RemoveNode(levels[0].orders, node);
      if os == [] then levels[1..] else [Level(price, os)] + levels[1..]
    else [levels[0]] + Remove(levels[1..], price, node)
  }

  lemma {:induction false} RemovedNode(os: seq<Order>, node: nat, i: nat)
    requires i < |os| && os[i].node == node && forall j :: 0 <= j < i ==> os[j].node != node
    ensures RemoveNode(os, node) == os[..i] + os[i + 1..]
  {
    if i > 0 {
      RemovedNode(os[1..], node, i - 1);
      assert os[..i] == [os[0]] + os[1..][..i - 1];
      assert os[i + 1..] == os[1..][i..];
    }
  }

  lemma {:induction false} RemoveFront(side: Side, levels: seq<Level>, q: seq<Order>, i: nat)
    requires Sorted(side, levels) && q == Flat(levels) && levels != [] && i < |levels[0].orders|
    requires forall j :: 0 <= j < i ==> q[j].node != q[i].node
    ensures Flat(Remove(levels, q[i].price, q[i].node)) == q[..i] + q[i + 1..]
  {
    var os, rest, o := levels[0].orders, levels[1..], q[i];
    assert o == os[i] && o in os && forall j :: 0 <= j < i ==> os[j] == q[j];
    RemovedNode(os, o.node, i);
    var os' := os[..i] + os[i + 1..];
    CutFirst(os, Flat(rest), i);
    if os' != [] {
      assert ([Level(o.price, os')] + rest)[1..] == rest;
    } else {
      assert os' + Flat(rest) == Flat(rest);
    }
  }

  lemma {:induction false} RemoveBehind(levels: seq<Level>, q: seq<Order>, i: nat, k: nat, rest': seq<Level>)
    requires levels != [] && q == Flat(levels) && i < |q| && k == i - |levels[0].orders|
    requires q[i].price != levels[0].price
    requires rest' == Remove(levels[1..], q[i].price, q[i].node)
    requires Flat(rest') == Flat(levels[1..])[..k] + Flat(levels[1..])[k + 1..]
    ensures Flat(Remove(levels, q[i].price, q[i].node)) == q[..i] + q[i + 1..]
  {
    assert ([levels[0]] + rest')[1..] == rest';
    var os, q' := levels[0].orders, Flat(levels[1..]);
    Cut(os, q', k);
    Cut(os, q', k + 1);
    assert os + (q'[..k] + q'[k + 1..]) == (os + q'[..k]) + q'[k + 1..];
  }

  /** Cancelling takes exactly one order out of the queue. */
  lemma {:induction false} RemoveRemoves(side: Side, levels: seq<Level>, q: seq<Order>, i: nat)
    requires Sorted(side, levels) && q == Flat(levels) && i < |q| && forall j :: 0 <= j < i ==> q[j].node != q[i].node
    ensures Flat(Remove(levels, q[i].price, q[i].node)) == q[..i] + q[i + 1..]
    decreases |levels|
  {
    hide Sorted, Remove;
    if i < |levels[0].orders| {
      RemoveFront(side, levels, q, i);
    } else {
      var k, rest := i - |levels[0].orders|, levels[1..];
      var q' := Flat(rest);
      assert q'[k] == q[i] && forall j :: 0 <= j < k ==> q'[j] == q[|levels[0].orders| + j];
      SortedTail(side, levels);
      RemoveRemoves(side, rest, q', k);
      Worse(side, levels, q');
      RemoveBehind(levels, q, i, k, Remove(rest, q[i].price, q[i].node));
    }
  }

  lemma {:induction false} RemoveSorted(side: Side, levels: seq<Level>, price: real, node: nat)
    requires Sorted(side, levels)
    ensures Sorted(side, Remove(levels, price, node))
  {
    if levels != [] {
      var rest := levels[1..];
      SortedTail(side, levels);
      RemoveSorted(side, rest, price, node);
      if levels[0].price == price {
        var os := RemoveNode(levels[0].orders, node);
        RemovedAre(levels[0].orders, node);
        if os != [] {
          SortedHead(side, levels, os);
        }
      } else {
        RemovedPrices(rest, price, node);
        var rest' := Remove(rest, price, node);
        forall j | 0 <= j < |rest'| ensures Better(side, levels[0].price, rest'[j].price) {
          var m :| 0 <= m < |rest| && rest'[j].price == rest[m].price;
          assert Better(side, levels[0].price, levels[m + 1].price);
        }
        PutFront(side, levels[0], rest');
      }
    }
  }

  lemma {:induction false} RemovedAre(os: seq<Order>, node: nat)
    ensures forall o :: o in RemoveNode(os, node) ==> o in os
  {
    if os != [] && os[0].node != node {
      RemovedAre(os[1..], node);
    }
  }

  lemma {:induction false} RemovedPrices(levels: seq<Level>, price: real, node: nat)
    ensures forall i :: 0 <= i < |Remove(levels, price, node)| ==>
              exists j :: 0 <= j < |levels| && Remove(levels, price, node)[i].price == levels[j].price
  {
    var r := Remove(levels, price, node);
    if levels != [] {
      RemovedPrices(levels[1..], price, node);
      forall i | 0 <= i < |r| ensures exists j :: 0 <= j < |levels| && r[i].price == levels[j].price {
        if levels[0].price == price {
          if RemoveNode(levels[0].orders, node) == [] {
            assert r[i].price == levels[i + 1].price;
          } else {
            assert r[i].price == levels[i].price;
          }
        } else if i == 0 {
          assert r[i].price == levels[0].price;
        } else {
          var j :| 0 <= j < |levels[1..]| && Remove(levels[1..], price, node)[i - 1].price == levels[1..][j].price;
          assert r[i].price == levels[j + 1].price;
        }
      }
    }
  }

  lemma {:induction false} VolumeSplit(a: seq<Order>, b: seq<Order>)
    ensures Volume(a + b) == Volume(a) + Volume(b)
  {
    if a == [] {
      assert a + b == b;
    } else {
      assert (a + b)[1..] == a[1..] + b;
      VolumeSplit(a[1..], b);
    }
  }

  /** Taking one order out of a queue, or putting it in, changes the volume by its own. */
  lemma {:induction false} VolumeAt(q: seq<Order>, p: nat, o: Order)
    requires p <= |q|
    ensures Volume(q[..p] + [o] + q[p..]) == Volume(q[..p] + q[p..]) + o.volume
  {
    VolumeSplit(q[..p] + [o], q[p..]);
    VolumeSplit(q[..p], [o]);
    VolumeSplit(q[..p], q[p..]);
  }
}

/** Which orders the index knows, and what inserting, filling and removing an order does to that. */
module BookIndex {
  import opened BookSide

  /** Where an order is: its side, its price level and its node in the level's list. */
  datatype Location = Location(side: Side, price: real, node: nat)

  ghost function Place(o: Order): Location { Location(o.side, o.price, o.node) }

  ghost predicate HasId(q: seq<Order>, id: nat) { exists i :: 0 <= i < |q| && q[i].id == id }

  ghost predicate Differ(o: Order, p: Order) { o.id != p.id }

  ghost predicate Apart(o: Order, p: Order) { o.node != p.node }

  ghost predicate IsAt(o: Order, id: nat, place: Location) { o.id == id && Place(o) == place }

  ghost predicate Points(q: seq<Order>, id: nat, place: Location) { exists i :: 0 <= i < |q| && IsAt(q[i], id, place) }

  /** Nodes are distinct and below n, and every entry of the index leads to a resting order with its id. */
  ghost predicate Tracked(index: map<nat, Location>, q: seq<Order>, n: nat) {
    && (forall i :: 0 <= i < |q| ==> q[i].node < n)
    && (forall i, j {:trigger Apart(q[i], q[j])} :: 0 <= i < j < |q| ==> Apart(q[i], q[j]))
    && (forall id :: id in index ==> Points(q, id, index[id]))
  }

  ghost predicate InIndex(index: map<nat, Location>, o: Order) { o.id in index && index[o.id] == Place(o) }

  /** Ids are distinct, and the index holds exactly the resting orders, with their place. */
  ghost predicate Indexed(index: map<nat, Location>, q: seq<Order>) {
    && (forall i, j {:trigger Differ(q[i], q[j])} :: 0 <= i < j < |q| ==> Differ(q[i], q[j]))
    && (forall i :: 0 <= i < |q| ==> InIndex(index, q[i]))
    && (forall id :: id in index ==> HasId(q, id))
  }

  ghost predicate TwoWith(q: seq<Order>, id: nat) {
    exists i, j {:trigger q[i], q[j]} :: 0 <= i < j < |q| && q[i].id == id && q[j].id == id
  }

  /** The index is exact but for one id, which two resting orders share or the index has lost. */
  ghost predicate ExactBut(index: map<nat, Location>, q: seq<Order>, id: nat) {
    && (forall i, j {:trigger Differ(q[i], q[j])} :: 0 <= i < j < |q| && q[i].id != id ==> Differ(q[i], q[j]))
    && (forall i :: 0 <= i < |q| && q[i].id != id ==> InIndex(index, q[i]))
    && (forall j :: j in index ==> HasId(q, j))
    && (TwoWith(q, id) || id !in index)
  }

  lemma {:induction false} NotTwice(index: map<nat, Location>, q: seq<Order>, id: nat)
    requires Indexed(index, q)
    ensures !TwoWith(q, id)
  {
    forall i, j | 0 <= i < j < |q| ensures !(q[i].id == id && q[j].id == id) {
      assert Differ(q[i], q[j]);
    }
  }

  /** Then it is exact again once no order with that id rests. */
  lemma {:induction false} ExactAgain(index: map<nat, Location>, q: seq<Order>, id: nat)
    requires ExactBut(index, q, id)
    ensures Indexed(index, q) <==> !HasId(q, id)
  {
    if Indexed(index, q) {
      NotTwice(index, q, id);
      forall k | 0 <= k < |q| ensures q[k].id != id {
        assert InIndex(index, q[k]);
      }
    }
    if !HasId(q, id) {
      forall i | 0 <= i < |q| ensures InIndex(index, q[i]) {
        assert q[i].id != id;
      }
      forall i, j | 0 <= i < j < |q| ensures Differ(q[i], q[j]) {
        assert q[i].id != id;
      }
    }
  }

  // ---- Inserting ----

  lemma {:induction false} InsertedAt(q: seq<Order>, p: nat, o: Order, q': seq<Order>)
    requires p <= |q| && q' == q[..p] + [o] + q[p..]
    ensures forall i :: 0 <= i < |q'| ==> q'[i] == if i < p then q[i] else if i == p then o else q[i - 1]
    ensures forall i :: 0 <= i < |q| ==> q'[if i < p then i else i + 1] == q[i]
  {
  }

  lemma {:induction false} InsertTracked(index: map<nat, Location>, q: seq<Order>, p: nat, o: Order, q': seq<Order>)
    requires Tracked(index, q, o.node) && p <= |q| && q' == q[..p] + [o] + q[p..]
    ensures Tracked(index[o.id := Place(o)], q', o.node + 1)
  {
    var index' := index[o.id := Place(o)];
    InsertedAt(q, p, o, q');
    forall i, j | 0 <= i < j < |q'| ensures Apart(q'[i], q'[j]) {
      if i != p && j != p {
        assert Apart(q[if i < p then i else i - 1], q[if j < p then j else j - 1]);
      }
    }
    forall id | id in index' ensures Points(q', id, index'[id]) {
      if id == o.id {
        assert IsAt(q'[p], id, index'[id]);
      } else {
        var i :| 0 <= i < |q| && IsAt(q[i], id, index[id]);
        assert IsAt(q'[if i < p then i else i + 1], id, index[id]);
      }
    }
  }

  lemma {:induction false} InsertKnown(index: map<nat, Location>, q: seq<Order>, p: nat, o: Order, q': seq<Order>)
    requires Indexed(index, q) && p <= |q| && q' == q[..p] + [o] + q[p..]
    ensures forall id :: id in index[o.id := Place(o)] ==> HasId(q', id)
    ensures forall i :: 0 <= i < |q'| && (q'[i].id != o.id || i == p) ==> InIndex(index[o.id := Place(o)], q'[i])
  {
    var index' := index[o.id := Place(o)];
    InsertedAt(q, p, o, q');
    forall i | 0 <= i < |q'| && (q'[i].id != o.id || i == p) ensures InIndex(index', q'[i]) {
      if i != p {
        assert InIndex(index, q[if i < p then i else i - 1]);
      }
    }
    forall id | id in index' ensures HasId(q', id) {
      if id == o.id {
        assert q'[p].id == id;
      } else {
        var i :| 0 <= i < |q| && q[i].id == id;
        assert q'[if i < p then i else i + 1].id == id;
      }
    }
  }

  lemma {:induction false} InsertDiffers(index: map<nat, Location>, q: seq<Order>, p: nat, o: Order, q': seq<Order>)
    requires Indexed(index, q) && p <= |q| && q' == q[..p] + [o] + q[p..]
    ensures forall i, j {:trigger Differ(q'[i], q'[j])} ::
              0 <= i < j < |q'| && (q'[i].id != o.id || o.id !in index) ==> Differ(q'[i], q'[j])
  {
    InsertedAt(q, p, o, q');
    hide Differ;
    forall i, j | 0 <= i < j < |q'| && (q'[i].id != o.id || o.id !in index) ensures Differ(q'[i], q'[j]) {
      if i != p && j != p {
        assert Differ(q[if i < p then i else i - 1], q[if j < p then j else j - 1]);
      } else {
        NewDiffers(index, q, p, o, q', i, j);
      }
    }
  }

  lemma {:induction false} NewDiffers(index: map<nat, Location>, q: seq<Order>, p: nat, o: Order, q': seq<Order>,
                                      i: nat, j: nat)
    requires Indexed(index, q) && p <= |q| && q' == q[..p] + [o] + q[p..] && i < j < |q'| && (i == p || j == p)
    requires q'[i].id != o.id || o.id !in index
    ensures Differ(q'[i], q'[j])
  {
    var k := if i == p then j - 1 else i;
    assert q'[if i == p then j else i] == q[k];
    assert InIndex(index, q[k]);
  }

  /** An exact index stays exact if and only if the id is new to it. */
  lemma {:induction false} InsertIndexed(index: map<nat, Location>, q: seq<Order>, p: nat, o: Order, q': seq<Order>)
    requires Indexed(index, q) && p <= |q| && q' == q[..p] + [o] + q[p..]
    ensures Indexed(index[o.id := Place(o)], q') <==> o.id !in index
    ensures o.id in index ==> ExactBut(index[o.id := Place(o)], q', o.id)
  {
    InsertKnown(index, q, p, o, q');
    InsertDiffers(index, q, p, o, q');
    InsertedAt(q, p, o, q');
    if o.id in index {
      var i :| 0 <= i < |q| && q[i].id == o.id;
      var j := if i < p then i else i + 1;
      assert q'[j].id == o.id && q'[p].id == o.id;
      assert !Differ(q'[if j < p then j else p], q'[if j < p then p else j]);
    } else {
      forall j | 0 <= j < |q'| && j != p ensures q'[j].id != o.id {
        assert InIndex(index, q[if j < p then j else j - 1]);
      }
    }
  }

  // ---- Removing and filling ----

  /** What one step keeps. */
  ghost predicate Evolves(index: map<nat, Location>, q: seq<Order>, index': map<nat, Location>, q': seq<Order>) {
    && (forall n :: Tracked(index, q, n) ==> Tracked(index', q', n))
    && (Indexed(index, q) ==> Indexed(index', q'))
    && (forall id :: ExactBut(index, q, id) ==> ExactBut(index', q', id))
  }

  lemma {:induction false} RemovedAt(q: seq<Order>, p: nat, q': seq<Order>)
    requires p < |q| && q' == q[..p] + q[p + 1..]
    ensures forall i :: 0 <= i < |q'| ==> q'[i] == q[if i < p then i else i + 1]
    ensures forall i :: 0 <= i < |q| && i != p ==> q'[if i < p then i else i - 1] == q[i]
  {
  }

  lemma {:induction false} RemoveTracked(index: map<nat, Location>, q: seq<Order>, p: nat, q': seq<Order>, n: nat)
    requires Tracked(index, q, n) && p < |q| && q' == q[..p] + q[p + 1..]
    ensures Tracked(index - {q[p].id}, q', n)
  {
    var index' := index - {q[p].id};
    RemovedAt(q, p, q');
    forall i, j | 0 <= i < j < |q'| ensures Apart(q'[i], q'[j]) {
      assert Apart(q[if i < p then i else i + 1], q[if j < p then j else j + 1]);
    }
    forall id | id in index' ensures Points(q', id, index'[id]) {
      var i :| 0 <= i < |q| && IsAt(q[i], id, index[id]);
      assert IsAt(q'[if i < p then i else i - 1], id, index[id]);
    }
  }

  /** Dropping an order and its id keeps an exact index exact. */
  lemma {:induction false} IndexedRemove(index: map<nat, Location>, q: seq<Order>, p: nat, q': seq<Order>)
    requires Indexed(index, q) && p < |q| && q' == q[..p] + q[p + 1..]
    ensures Indexed(index - {q[p].id}, q')
  {
    var index' := index - {q[p].id};
    RemovedAt(q, p, q');
    forall i | 0 <= i < |q'| ensures InIndex(index', q'[i]) {
      var k := if i < p then i else i + 1;
      assert if k < p then Differ(q[k], q[p]) else Differ(q[p], q[k]);
      assert InIndex(index, q[k]);
    }
    forall i, j | 0 <= i < j < |q'| ensures Differ(q'[i], q'[j]) {
      assert Differ(q[if i < p then i else i + 1], q[if j < p then j else j + 1]);
    }
    forall id | id in index' ensures HasId(q', id) {
      var i :| 0 <= i < |q| && q[i].id == id;
      assert q'[if i < p then i else i - 1].id == id;
    }
  }

  lemma {:induction false} RemoveKnown(index: map<nat, Location>, q: seq<Order>, p: nat, q': seq<Order>, id: nat)
    requires ExactBut(index, q, id) && p < |q| && q' == q[..p] + q[p + 1..]
    ensures forall i :: 0 <= i < |q'| && q'[i].id != id ==> InIndex(index - {q[p].id}, q'[i])
    ensures forall x :: x in index - {q[p].id} ==> HasId(q', x)
  {
    var index' := index - {q[p].id};
    RemovedAt(q, p, q');
    forall i | 0 <= i < |q'| && q'[i].id != id ensures InIndex(index', q'[i]) {
      var k := if i < p then i else i + 1;
      assert InIndex(index, q[k]);
      assert k < p ==> Differ(q[k], q[p]);
      assert k > p && q[p].id != id ==> Differ(q[p], q[k]);
    }
    forall x | x in index' ensures HasId(q', x) {
      var i :| 0 <= i < |q| && q[i].id == x;
      assert q'[if i < p then i else i - 1].id == x;
    }
  }

  lemma {:induction false} RemoveTwo(q: seq<Order>, p: nat, q': seq<Order>, id: nat)
    requires TwoWith(q, id) && p < |q| && q' == q[..p] + q[p + 1..] && q[p].id != id
    ensures TwoWith(q', id)
  {
    RemovedAt(q, p, q');
    var i, j :| 0 <= i < j < |q| && q[i].id == id && q[j].id == id;
    assert q'[if i < p then i else i - 1].id == id && q'[if j < p then j else j - 1].id == id;
  }

  lemma {:induction false} ExactButRemove(index: map<nat, Location>, q: seq<Order>, p: nat, q': seq<Order>, id: nat)
    requires ExactBut(index, q, id) && p < |q| && q' == q[..p] + q[p + 1..]
    ensures ExactBut(index - {q[p].id}, q', id)
  {
    hide TwoWith, InIndex, HasId, Differ;
    RemoveKnown(index, q, p, q', id);
    RemovedAt(q, p, q');
    forall i, j | 0 <= i < j < |q'| && q'[i].id != id ensures Differ(q'[i], q'[j]) {
      assert Differ(q[if i < p then i else i + 1], q[if j < p then j else j + 1]);
    }
    if q[p].id != id && TwoWith(q, id) {
      RemoveTwo(q, p, q', id);
    }
  }

  lemma {:induction false} RemoveEvolves(index: map<nat, Location>, q: seq<Order>, p: nat, q': seq<Order>)
    requires p < |q| && q' == q[..p] + q[p + 1..]
    ensures Evolves(index, q, index - {q[p].id}, q')
  {
    hide Tracked, Indexed, ExactBut;
    forall n | Tracked(index, q, n) ensures Tracked(index - {q[p].id}, q', n) {
      RemoveTracked(index, q, p, q', n);
    }
    if Indexed(index, q) {
      IndexedRemove(index, q, p, q');
    }
    forall id | ExactBut(index, q, id) ensures ExactBut(index - {q[p].id}, q', id) {
      ExactButRemove(index, q, p, q', id);
    }
  }

  /** The same orders, at the same places. */
  ghost predicate Alike(q: seq<Order>, q': seq<Order>) {
    |q| == |q'| && forall i :: 0 <= i < |q| ==> q'[i] == q[i].(volume := q'[i].volume)
  }

  lemma {:induction false} AlikeTracked(index: map<nat, Location>, q: seq<Order>, q': seq<Order>, n: nat)
    requires Alike(q, q') && Tracked(index, q, n)
    ensures Tracked(index, q', n)
  {
    forall i, j | 0 <= i < j < |q'| ensures Apart(q'[i], q'[j]) {
      assert Apart(q[i], q[j]);
    }
    forall id | id in index ensures Points(q', id, index[id]) {
      var i :| 0 <= i < |q| && IsAt(q[i], id, index[id]);
      assert IsAt(q'[i], id, index[id]);
    }
  }

  lemma {:induction false} AlikeIds(index: map<nat, Location>, q: seq<Order>, q': seq<Order>, id: nat)
    requires Alike(q, q')
    ensures Indexed(index, q) ==> Indexed(index, q')
    ensures ExactBut(index, q, id) ==> ExactBut(index, q', id)
  {
    forall i | 0 <= i < |q| ensures InIndex(index, q[i]) <==> InIndex(index, q'[i]) {
    }
    forall i, j | 0 <= i < j < |q| ensures Differ(q[i], q[j]) <==> Differ(q'[i], q'[j]) {
    }
    forall x | HasId(q, x) ensures HasId(q', x) {
      var i :| 0 <= i < |q| && q[i].id == x;
      assert q'[i].id == x;
    }
    if TwoWith(q, id) {
      var i, j :| 0 <= i < j < |q| && q[i].id == id && q[j].id == id;
      assert q'[i].id == id && q'[j].id == id;
    }
  }

  lemma {:induction false} AlikeEvolves(index: map<nat, Location>, q: seq<Order>, q': seq<Order>)
    requires Alike(q, q')
    ensures Evolves(index, q, index, q')
  {
    hide Tracked, Indexed, ExactBut, Alike;
    forall n | Tracked(index, q, n) ensures Tracked(index, q', n) {
      AlikeTracked(index, q, q', n);
    }
    AlikeIds(index, q, q', 0);
    forall id | ExactBut(index, q, id) ensures ExactBut(index, q', id) {
      AlikeIds(index, q, q', id);
    }
  }

  /** The index after an order gave up t. */
  ghost function After(index: map<nat, Location>, o: Order, t: nat): map<nat, Location> {
    if o.volume == t then index - {o.id} else index
  }

  /** Filling the order at the head of a part of the queue. */
  lemma {:induction false} FillEvolves(index: map<nat, Location>, before: seq<Order>, r: seq<Order>,
                                       behind: seq<Order>, t: nat)
    requires r != [] && t <= r[0].volume
    ensures Evolves(index, before + r + behind, After(index, r[0], t), before + Filled(r, t) + behind)
  {
    hide Evolves;
    var q, p := before + r + behind, |before|;
    assert q[p] == r[0];
    if r[0].volume == t {
      assert before + r[1..] + behind == q[..p] + q[p + 1..];
      RemoveEvolves(index, q, p, before + r[1..] + behind);
    } else {
      var o := r[0].(volume := r[0].volume - t);
      assert before + ([o] + r[1..]) + behind == q[p := o];
      AlikeEvolves(index, q, q[p := o]);
    }
  }

  lemma {:induction false} TradeEvolves(index: map<nat, Location>, b: seq<Order>, a: seq<Order>, t: nat)
    requires b != [] && a != [] && t <= b[0].volume && t <= a[0].volume
    ensures Evolves(index, b + a, After(After(index, b[0], t), a[0], t), Filled(b, t) + Filled(a, t))
  {
    hide Tracked, Indexed, ExactBut, After, Filled;
    assert [] + b + a == b + a;
    FillEvolves(index, [], b, a, t);
    assert [] + Filled(b, t) + a == Filled(b, t) + a + [];
    FillEvolves(After(index, b[0], t), Filled(b, t), a, [], t);
    assert Filled(b, t) + Filled(a, t) + [] == Filled(b, t) + Filled(a, t);
  }
}

/** The matching engine: two sides, an index of the resting orders, and the matching loop. */
module OrderBook {
  import opened BookSide
  import opened BookIndex

  /** A trade between two orders as they were just before it. */
  datatype Trade = Trade(bid: Order, ask: Order, volume: nat)

  /** Trades happen at crossing prices only, and fill the smaller order. */
  ghost predicate Fair(t: Trade) {
    && t.bid.price >= t.ask.price
    && t.volume == if t.bid.volume < t.ask.volume then t.bid.volume else t.ask.volume
  }

  ghost function Total(trades: seq<Trade>): nat {
    if trades == [] then 0 else Total(trades[..|trades| - 1]) + trades[|trades| - 1].volume
  }

  lemma {:induction false} TotalAppend(trades: seq<Trade>, t: Trade)
    ensures Total(trades + [t]) == Total(trades) + t.volume
  {
    assert (trades + [t])[..|trades|] == trades;
  }

  /** The best bid and the best ask cross. */
  ghost predicate Crossed(b: seq<Order>, a: seq<Order>) { b != [] && a != [] && b[0].price >= a[0].price }

  /** A trade between the two heads, as they are. */
  ghost predicate AtHeads(t: Trade, b: seq<Order>, a: seq<Order>) {
    b != [] && a != [] && t.bid == b[0] && t.ask == a[0] && Fair(t)
  }

  /** Trading the heads one after the other, while they cross, leads from the queues b and a to b' and a'. */
  ghost predicate Replays(b: seq<Order>, a: seq<Order>, trades: seq<Trade>, b': seq<Order>, a': seq<Order>)
    decreases |trades|
  {
    if trades == [] then b' == b && a' == a
    else
      && AtHeads(trades[0], b, a)
      && Replays(Filled(b, trades[0].volume), Filled(a, trades[0].volume), trades[1..], b', a')
  }

  lemma {:induction false} ReplaysAppend(b: seq<Order>, a: seq<Order>, trades: seq<Trade>, b': seq<Order>,
                                         a': seq<Order>, t: Trade)
    requires Replays(b, a, trades, b', a') && AtHeads(t, b', a')
    ensures Replays(b, a, trades + [t], Filled(b', t.volume), Filled(a', t.volume))
    decreases |trades|
  {
    hide Filled;
    var all := trades + [t];
    if trades == [] {
      assert all[1..] == [];
    } else {
      var v := trades[0].volume;
      ReplaysAppend(Filled(b, v), Filled(a, v), trades[1..], b', a', t);
      assert all[1..] == trades[1..] + [t];
    }
  }

  /** The queues determine the trades: there is one way to trade until nothing crosses. */
  lemma {:induction false} OneWayToTrade(b: seq<Order>, a: seq<Order>, ts: seq<Trade>, b1: seq<Order>, a1: seq<Order>,
                                         us: seq<Trade>, b2: seq<Order>, a2: seq<Order>)
    requires Replays(b, a, ts, b1, a1) && !Crossed(b1, a1) && Replays(b, a, us, b2, a2) && !Crossed(b2, a2)
    ensures ts == us && b1 == b2 && a1 == a2
    decreases |ts|
  {
    hide Filled;
    if ts != [] && us != [] {
      var v := ts[0].volume;
      OneWayToTrade(Filled(b, v), Filled(a, v), ts[1..], b1, a1, us[1..], b2, a2);
      assert ts == [ts[0]] + ts[1..] && us == [us[0]] + us[1..];
    }
  }

  /** The index after the trades: an order that was filled takes its id with it. */
  ghost function Cleared(index: map<nat, Location>, trades: seq<Trade>): map<nat, Location> {
    if trades == [] then index
    else
      var t := trades[|trades| - 1];
      After(After(Cleared(index, trades[..|trades| - 1]), t.bid, t.volume), t.ask, t.volume)
  }

  class LimitOrderBook {
    var bids: seq<Level>
    var asks: seq<Level>
    var index: map<nat, Location>
    var nodes: nat  // how many list nodes have been made
    ghost var submitted: map<Side, nat>
    ghost var cancelled: map<Side, nat>
    ghost var trades: seq<Trade>

    ghost function Queue(side: Side): seq<Order>
      reads this
    {
      Flat(if side.Buy? then bids else asks)
    }

    ghost function Resting(): seq<Order>
      reads this
    {
      Queue(Buy) + Queue(Sell)
    }

    /** What holds whatever ids the orders have. */
    ghost predicate Sound()
      reads this
    {
      && Sorted(Buy, bids) && Sorted(Sell, asks) && Tracked(index, Resting(), nodes)
      && Conserved(Buy) && Conserved(Sell) && forall t :: t in trades ==> Fair(t)
    }

    ghost predicate Valid()
      reads this
    {
      Sound() && Indexed(index, Resting())
    }

    /** Submitted volume is resting, traded or cancelled. */
    ghost predicate Conserved(side: Side)
      reads this
    {
      && side in submitted && side in cancelled
      && submitted[side] == Volume(Queue(side)) + Total(trades) + cancelled[side]
    }

    ghost predicate Uncrossed()
      reads this
    {
      bids == [] || asks == [] || bids[0].price < asks[0].price
    }

    constructor ()
      ensures Valid() && Uncrossed() && Queue(Buy) == Queue(Sell) == [] && trades == [] && index == map[]
      ensures nodes == 0
    {
      bids, asks, index, nodes := [], [], map[], 0;
      submitted, cancelled, trades := map[Buy := 0, Sell := 0], map[Buy := 0, Sell := 0], [];
    }

    /** Trades best bid against best ask until the book is uncrossed: every trade is between the two orders that head
        the queues at that moment. Orders leave each side strictly in price-time order. The index loses exactly the
        ids of filled orders. */
    method Match()
      requires Sound()
      modifies this`bids, this`asks, this`index, this`trades
      ensures Sound() && Uncrossed() && (old(Valid()) ==> Valid())
      ensures Consumed(old(Queue(Buy)), Queue(Buy)) && Consumed(old(Queue(Sell)), Queue(Sell))
      ensures old(trades) <= trades && (old(Uncrossed()) ==> unchanged(this))
      ensures index == Cleared(old(index), trades[|old(trades)|..])
      ensures Replays(old(Queue(Buy)), old(Queue(Sell)), trades[|old(trades)|..], Queue(Buy), Queue(Sell))
      ensures forall id :: old(ExactBut(index, Resting(), id)) ==> ExactBut(index, Resting(), id)
    {
      hide Sorted, Indexed, Tracked, ExactBut, Consumed, Total, Fair, Flat, AtHeads;
      SelfConsumed(Queue(Buy));
      SelfConsumed(Queue(Sell));
      while bids != [] && asks != []
        invariant Sound() && (old(Valid()) ==> Valid())
        invariant Consumed(old(Queue(Buy)), Queue(Buy)) && Consumed(old(Queue(Sell)), Queue(Sell))
        invariant old(trades) <= trades && (old(Uncrossed()) ==> unchanged(this))
        invariant index == Cleared(old(index), trades[|old(trades)|..])
        invariant Replays(old(Queue(Buy)), old(Queue(Sell)), trades[|old(trades)|..], Queue(Buy), Queue(Sell))
        invariant forall id :: old(ExactBut(index, Resting(), id)) ==> ExactBut(index, Resting(), id)
        decreases |Queue(Buy)| + |Queue(Sell)|
      {
        if bids[0].price < asks[0].price {
          break;
        }
        ghost var since, b, a := trades[|old(trades)|..], Queue(Buy), Queue(Sell);
        ghost var t := TradeBest();
        ReplaysAppend(old(Queue(Buy)), old(Queue(Sell)), since, b, a, t);
        assert trades[|old(trades)|..] == since + [t];
      }
    }

    /** A new order queues behind every order of a price at least as good, then trades as far as it can. The index
        then has the new order in place of one with the same id, without the ids of the orders filled. If the id
        rested already, an exact index is exact again if and only if no order with that id rests any more. */
    method AddOrder(id: nat, side: Side, price: real, volume: nat) returns (ghost joined: seq<Order>, ghost p: nat)
      requires Sound()
      modifies this
      ensures Sound() && Uncrossed()
      ensures old(Valid()) && id !in old(index) ==> Valid()
      ensures old(Valid()) && id in old(index) ==> (Valid() <==> !HasId(Resting(), id))
      ensures Behind(side, old(Queue(side)), price, p)
      ensures joined == old(Queue(side))[..p] + [Order(id, side, price, volume, old(nodes))] + old(Queue(side))[p..]
      ensures Consumed(joined, Queue(side)) && forall s :: s != side ==> Consumed(old(Queue(s)), Queue(s))
      ensures old(trades) <= trades
      ensures Replays(if side.Buy? then joined else old(Queue(Buy)), if side.Buy? then old(Queue(Sell)) else joined,
                      trades[|old(trades)|..], Queue(Buy), Queue(Sell))
      ensures (forall s :: s != side ==> old(Queue(s)) == []) ==> Queue(side) == joined && trades == old(trades)
      ensures forall s :: old(Queue(s)) == [] && s != side ==> Queue(s) == []
      ensures index == Cleared(old(index)[id := Location(side, price, old(nodes))], trades[|old(trades)|..])
      ensures side in old(submitted) && submitted == old(submitted)[side := old(submitted)[side] + volume]
      ensures cancelled == old(cancelled) && nodes == old(nodes) + 1
    {
      hide Sorted, Indexed, Tracked, ExactBut, Behind, Consumed, Flat, Volume, Total, Fair, Cleared, Replays;
      joined, p := Rest(Order(id, side, price, volume, nodes));
      ghost var doubled := old(Valid()) && id in old(index);
      assert doubled ==> ExactBut(index, Resting(), id);
      NobodyRests(Buy, bids);
      NobodyRests(Sell, asks);
      Match();
      if doubled {
        ExactAgain(index, Resting(), id);
      }
    }

    /** Appends the order to its price level. An exact index stays exact if and only if the id is new to it. */
    method Rest(o: Order) returns (ghost joined: seq<Order>, ghost p: nat)
      requires Sound() && o.node == nodes
      modifies this
      ensures Sound() && (old(Valid()) ==> (Valid() <==> o.id !in old(index)))
      ensures old(Valid()) && o.id in old(index) ==> ExactBut(index, Resting(), o.id)
      ensures Behind(o.side, old(Queue(o.side)), o.price, p)
      ensures joined == old(Queue(o.side))[..p] + [o] + old(Queue(o.side))[p..] && Queue(o.side) == joined
      ensures forall s :: s != o.side ==> Queue(s) == old(Queue(s))
      ensures index == old(index)[o.id := Location(o.side, o.price, o.node)] && nodes == old(nodes) + 1
      ensures o.side in old(submitted) && submitted == old(submitted)[o.side := old(submitted)[o.side] + o.volume]
      ensures cancelled == old(cancelled) && trades == old(trades)
    {
      hide Sorted, Indexed, Tracked, ExactBut, Behind, Flat, Volume, Add, Total, Fair;
      ghost var q, was := Queue(o.side), Resting();
      ghost var k;
      if o.side.Buy? {
        AddSorted(Buy, bids, o);
        p := AddQueues(Buy, bids, o);
        BehindBound(Buy, q, o.price, p);
        k := p;
        bids := Add(Buy, bids, o);
      } else {
        AddSorted(Sell, asks, o);
        p := AddQueues(Sell, asks, o);
        BehindBound(Sell, q, o.price, p);
        k := |Queue(Buy)| + p;
        asks := Add(Sell, asks, o);
      }
      joined := q[..p] + [o] + q[p..];
      assert Resting() == was[..k] + [o] + was[k..];
      InsertTracked(index, was, k, o, Resting());
      if Indexed(index, was) {
        InsertIndexed(index, was, k, o, Resting());
      }
      VolumeAt(q, p, o);
      assert q[..p] + q[p..] == q;
      index, nodes := index[o.id := Location(o.side, o.price, o.node)], nodes + 1;
      submitted := submitted[o.side := submitted[o.side] + o.volume];
    }

    /** Cancelling takes exactly the order out that the index leads to, if any, and cannot cross the book. */
    method CancelOrder(id: nat) returns (ghost p: nat)
      requires Sound()
      modifies this
      ensures Sound() && (old(Valid()) ==> Valid()) && (old(Uncrossed()) ==> Uncrossed())
      ensures index == old(index) - {id} && nodes == old(nodes)
      ensures id !in old(index) ==> unchanged(this)
      ensures id in old(index) ==>
                var side := old(index)[id].side;
                var q := old(Queue(side));
                && p < |q| && IsAt(q[p], id, old(index)[id]) && Queue(side) == q[..p] + q[p + 1..]
                && side in old(cancelled) && cancelled == old(cancelled)[side := old(cancelled)[side] + q[p].volume]
                && forall s :: s != side ==> Queue(s) == old(Queue(s))
      ensures submitted == old(submitted) && trades == old(trades)
    {
      hide Sorted, Indexed, Tracked, ExactBut, Flat, Volume, Remove, Total, Fair;
      p := 0;
      if id !in index {
        return;
      }
      var place := index[id];
      p := FindOrder(index, bids, asks, nodes, id);
      ghost var q, was := Queue(place.side), Resting();
      ghost var k := if place.side.Buy? then p else |Queue(Buy)| + p;
      TakenVolume(q, p);
      if place.side.Buy? {
        CancelLevels(Buy, bids, q, p);
        bids := Remove(bids, place.price, place.node);
      } else {
        CancelLevels(Sell, asks, q, p);
        asks := Remove(asks, place.price, place.node);
      }
      assert was[k] == q[p] && Resting() == was[..k] + was[k + 1..];
      RemoveEvolves(index, was, k, Resting());
      cancelled := cancelled[place.side := cancelled[place.side] + q[p].volume];
      index := index - {id};
    }

    method TradeBest() returns (ghost made: Trade)
      requires Sound() && bids != [] && asks != [] && bids[0].price >= asks[0].price
      modifies this`bids, this`asks, this`index, this`trades
      ensures Sound() && (old(Valid()) ==> Valid())
      ensures |Queue(Buy)| + |Queue(Sell)| < old(|Queue(Buy)| + |Queue(Sell)|)
      ensures trades == old(trades) + [made] && AtHeads(made, old(Queue(Buy)), old(Queue(Sell)))
      ensures Queue(Buy) == Filled(old(Queue(Buy)), made.volume)
      ensures Queue(Sell) == Filled(old(Queue(Sell)), made.volume)
      ensures index == After(After(old(index), made.bid, made.volume), made.ask, made.volume)
      ensures forall id :: old(ExactBut(index, Resting(), id)) ==> ExactBut(index, Resting(), id)
      ensures forall q :: Consumed(q, old(Queue(Buy))) ==> Consumed(q, Queue(Buy))
      ensures forall q :: Consumed(q, old(Queue(Sell))) ==> Consumed(q, Queue(Sell))
    {
      hide Sorted, Indexed, Tracked, ExactBut, Consumed, Fill, Filled, Total, Flat, Volume;
      HasBest(Buy, bids);
      HasBest(Sell, asks);
      var bid, ask := bids[0].orders[0], asks[0].orders[0];
      var t := if bid.volume < ask.volume then bid.volume else ask.volume;
      made := Trade(bid, ask, t);
      ghost var b, a := Queue(Buy), Queue(Sell);
      FillFills(bids, t);
      FillFills(asks, t);
      FillSorted(Buy, bids, t);
      FillSorted(Sell, asks, t);
      TradeEvolves(index, b, a, t);
      FilledVolume(b, t);
      FilledVolume(a, t);
      FillsConsume(b, t);
      FillsConsume(a, t);
      FilledShrinks(b, t);
      FilledShrinks(a, t);
      if bid.volume == t {
        index := index - {bid.id};
      }
      if ask.volume == t {
        index := index - {ask.id};
      }
      TotalAppend(trades, made);
      bids, asks, trades := Fill(bids, t), Fill(asks, t), trades + [made];
    }
  }

  lemma {:induction false} HasBest(side: Side, levels: seq<Level>)
    requires Sorted(side, levels) && levels != []
    ensures levels[0].orders != [] && levels[0].orders[0].price == levels[0].price
  {
    assert levels[0].orders[0] in levels[0].orders;
  }

  lemma {:induction false} FilledShrinks(q: seq<Order>, t: nat)
    requires q != [] && t <= q[0].volume
    ensures |Filled(q, t)| == |q| - if q[0].volume == t then 1 else 0
  {
  }

  lemma {:induction false} FillsConsume(r: seq<Order>, t: nat)
    requires r != [] && t <= r[0].volume
    ensures forall q :: Consumed(q, r) ==> Consumed(q, Filled(r, t))
  {
    forall q | Consumed(q, r) ensures Consumed(q, Filled(r, t)) {
      FilledConsumes(q, r, t);
    }
  }

  lemma {:induction false} BehindBound(side: Side, q: seq<Order>, price: real, p: nat)
    requires Behind(side, q, price, p)
    ensures p <= |q|
  {
  }

  lemma {:induction false} NobodyRests(side: Side, levels: seq<Level>)
    requires Sorted(side, levels)
    ensures Flat(levels) == [] ==> levels == []
  {
  }

  lemma {:induction false} SelfConsumed(q: seq<Order>)
    ensures Consumed(q, q)
  {
  }

  /** The index says which side's queue an order is in. */
  lemma {:induction false} FindOrder(index: map<nat, Location>, bids: seq<Level>, asks: seq<Level>, n: nat,
                                     id: nat) returns (p: nat)
    requires Sorted(Buy, bids) && Sorted(Sell, asks) && Tracked(index, Flat(bids) + Flat(asks), n) && id in index
    ensures var q := Flat(if index[id].side.Buy? then bids else asks);
            && p < |q| && IsAt(q[p], id, index[id])
            && forall j :: 0 <= j < p ==> q[j].node != q[p].node
  {
    FlatSides(Buy, bids);
    FlatSides(Sell, asks);
    hide Sorted, Flat;
    var b, a := Flat(bids), Flat(asks);
    var q := b + a;
    assert Points(q, id, index[id]);
    var k: nat :| k < |q| && IsAt(q[k], id, index[id]);
    NodeOnSide(index, b, a, n, k);
    p := if k < |b| then k else k - |b|;
  }

  lemma {:induction false} NodeOnSide(index: map<nat, Location>, b: seq<Order>, a: seq<Order>, n: nat, k: nat)
    requires Tracked(index, b + a, n) && k < |b + a|
    requires (forall o :: o in b ==> o.side == Buy) && (forall o :: o in a ==> o.side == Sell)
    ensures var o := (b + a)[k];
            && (k < |b| ==> o.side.Buy? && o == b[k] && forall j :: 0 <= j < k ==> b[j].node != o.node)
            && (k >= |b| ==> o.side.Sell? && o == a[k - |b|] && forall j :: 0 <= j < k - |b| ==> a[j].node != o.node)
  {
    var q := b + a;
    forall j | 0 <= j < k ensures q[j].node != q[k].node {
      assert Apart(q[j], q[k]);
    }
    if k < |b| {
      assert q[k] in b && forall j :: 0 <= j < k ==> b[j] == q[j];
    } else {
      assert q[k] in a && forall j :: 0 <= j < k - |b| ==> a[j] == q[|b| + j];
    }
  }

  lemma {:induction false} TakenVolume(q: seq<Order>, p: nat)
    requires p < |q|
    ensures Volume(q) == Volume(q[..p] + q[p + 1..]) + q[p].volume
  {
    var rest := q[..p] + q[p + 1..];
    VolumeAt(rest, p, q[p]);
    assert rest[..p] + [q[p]] + rest[p..] == q && rest[..p] + rest[p..] == rest;
  }

  /** Taking an order out leaves the best price where it was or makes it worse. */
  lemma {:induction false} CancelLevels(side: Side, levels: seq<Level>, q: seq<Order>, p: nat)
    requires Sorted(side, levels) && q == Flat(levels) && p < |q| && forall j :: 0 <= j < p ==> q[j].node != q[p].node
    ensures var levels' := Remove(levels, q[p].price, q[p].node);
            && Sorted(side, levels') && Flat(levels') == q[..p] + q[p + 1..]
            && (levels' != [] ==> levels != [] && !Better(side, levels'[0].price, levels[0].price))
  {
    RemoveRemoves(side, levels, q, p);
    RemoveSorted(side, levels, q[p].price, q[p].node);
    RemovedPrices(levels, q[p].price, q[p].node);
    var levels' := Remove(levels, q[p].price, q[p].node);
    if levels' != [] {
      var j :| 0 <= j < |levels| && levels'[0].price == levels[j].price;
      assert j > 0 ==> Better(side, levels[0].price, levels[j].price);
    }
  }

  // ---- One id twice ----

  /** Two orders with the same id rest: the index knows the second one only. Cancelling takes that one out, and the
      first order rests with an id that the index has lost. */
  method SameIdTwice() returns (book: LimitOrderBook)
    ensures book.Sound() && !book.Valid() && book.index == map[]
    ensures book.Queue(Buy) == [Order(5, Buy, 1.0, 10, 0)]
  {
    hide Sorted, Tracked, Volume, Total, Fair, Flat, LimitOrderBook.Conserved, ExactBut;
    book := TwoFives();
    ghost var p := book.CancelOrder(5);
    assert book.Queue(Buy) == [Order(5, Buy, 1.0, 10, 0)];
    assert book.Resting()[0].id == 5;
  }

  method TwoFives() returns (book: LimitOrderBook)
    ensures fresh(book) && book.Sound() && !book.Valid() && book.index == map[5 := Location(Buy, 1.0, 1)]
    ensures book.Queue(Buy) == [Order(5, Buy, 1.0, 10, 0), Order(5, Buy, 1.0, 10, 1)]
  {
    hide Sorted, Tracked, Indexed, Volume, Total, Fair, Flat, LimitOrderBook.Conserved, Consumed, Better;
    book := new LimitOrderBook();
    ghost var joined, p := book.AddOrder(5, Buy, 1.0, 10);
    assert book.Queue(Buy) == [Order(5, Buy, 1.0, 10, 0)] && book.Queue(Sell) == [];
    joined, p := book.AddOrder(5, Buy, 1.0, 10);
    PlacedLast(Order(5, Buy, 1.0, 10, 0), p);
    assert book.Resting()[0].id == 5;
  }

  lemma {:induction false} PlacedLast(o: Order, p: nat)
    requires Behind(Buy, [o], o.price, p)
    ensures p == 1
  {
    var q := [o];
    assert q[0].price == o.price;
  }
}
