/** The stock check and decrement that turns requested lines into an order. */
module Stock {
  import opened Model

  /** How many units of `a` the lines ask for together. */
  function Demand(lines: seq<Line>, a: Id): int {
    if lines == [] then 0
    else (if lines[0].article == a then lines[0].quantity else 0) + Demand(lines[1..], a)
  }

  function Total(lines: seq<Line>): real {
    if lines == [] then 0.0 else lines[0].price * (lines[0].quantity as real) + Total(lines[1..])
  }

  function KeySet(lines: seq<Line>): set<Id> {
    set l | l in lines :: l.article
  }

  predicate Positive(lines: seq<Line>) {
    forall l | l in lines :: l.quantity > 0
  }

  // ---------- what an order costs ----------

  /** The price of every single unit ordered, one after the other. */
  function UnitPrices(lines: seq<Line>): seq<real> {
    if lines == [] then [] else Copies(lines[0].price, lines[0].quantity) + UnitPrices(lines[1..])
  }

  function Copies(price: real, n: int): seq<real>
    decreases if n > 0 then n else 0
  {
    if n <= 0 then [] else [price] + Copies(price, n - 1)
  }

  function Sum(prices: seq<real>): real {
    if prices == [] then 0.0 else prices[0] + Sum(prices[1..])
  }

  lemma {:induction false} SumOfConcat(p: seq<real>, q: seq<real>)
    ensures Sum(p + q) == Sum(p) + Sum(q)
  {
    if p == [] {
      assert p + q == q;
    } else {
      assert (p + q)[1..] == p[1..] + q;
      SumOfConcat(p[1..], q);
    }
  }

  lemma {:induction false} SumOfCopies(price: real, n: nat)
    ensures Sum(Copies(price, n)) == price * (n as real)
  {
    if n == 0 {
    } else {
      SumOfCopies(price, n - 1);
      assert price * (n as real) == price + price * ((n - 1) as real);
    }
  }

  /** Every unit is paid at the price of its line. */
  lemma {:induction false} EveryUnitIsPaid(lines: seq<Line>)
    requires Positive(lines)
    ensures Total(lines) == Sum(UnitPrices(lines))
  {
    if lines == [] {
    } else {
      hide Sum, Copies;
      var l := lines[0];
      assert l in lines && forall x | x in lines[1..] :: x in lines;
      EveryUnitIsPaid(lines[1..]);
      SumOfConcat(Copies(l.price, l.quantity), UnitPrices(lines[1..]));
      SumOfCopies(l.price, l.quantity);
    }
  }

  lemma {:induction false} TotalOfConcat(p: seq<Line>, q: seq<Line>)
    ensures Total(p + q) == Total(p) + Total(q)
  {
    if p == [] {
      assert p + q == q;
    } else {
      assert (p + q)[1..] == p[1..] + q;
      TotalOfConcat(p[1..], q);
    }
  }

  /** The laws of the total: one unit costs its price, a line costs what its parts cost, and carts add up.
      No other function of the lines has all three. */
  lemma TotalLaws(a: Id, price: real, m: int, n: int, p: seq<Line>, q: seq<Line>)
    ensures Total([]) == 0.0
    ensures Total([Line(a, 1, price)]) == price
    ensures Total([Line(a, m + n, price)]) == Total([Line(a, m, price)]) + Total([Line(a, n, price)])
    ensures Total(p + q) == Total(p) + Total(q)
  {
    TotalOfConcat(p, q);
    assert [Line(a, m + n, price)][1..] == [] && [Line(a, m, price)][1..] == [] && [Line(a, n, price)][1..] == [];
    assert price * ((m + n) as real) == price * (m as real) + price * (n as real);
  }

  datatype Outcome = Filled(articles: map<Id, Article>) | Short(article: Id)

  function Sell(x: Article, quantity: int, now: int): Article {
    x.(quantity := x.quantity - quantity, updated := now)
  }

  /** Line by line: refuse the first line the remaining stock cannot fill. */
  function Take(articles: map<Id, Article>, lines: seq<Line>, now: int): Outcome {
    if lines == [] then Filled(articles)
    else
      var l := lines[0];
      if l.article !in articles || articles[l.article].quantity < l.quantity then Short(l.article)
      else Take(articles[l.article := Sell(articles[l.article], l.quantity, now)], lines[1..], now)
  }

  /** The loop in the form the checkout runs it: one pass updates stock, total and items. */
  method TakeLines(loaded: map<Id, Article>, lines: seq<Line>, now: int)
    returns (articles: map<Id, Article>, total: real, items: seq<Line>, short: Option<Id>)
    ensures short.None? ==> Take(loaded, lines, now) == Filled(articles)
    ensures short.None? ==> total == Total(lines) && items == lines
    ensures short.None? && Positive(lines) ==> total == Sum(UnitPrices(lines))
    ensures short.Some? ==> Take(loaded, lines, now) == Short(short.value)
  {
    articles, total, items, short := loaded, 0.0, [], None;
    for i := 0 to |lines|
      invariant Take(loaded, lines, now) == Take(articles, lines[i..], now)
      invariant total + Total(lines[i..]) == Total(lines)
      invariant items == lines[..i]
    {
      var item := lines[i];
      if item.article !in articles || articles[item.article].quantity < item.quantity {
        short := Some(item.article);
        return;
      }
      articles := articles[item.article := Sell(articles[item.article], item.quantity, now)];
      total := total + item.price * (item.quantity as real);
      items := items + [item];
      assert lines[i..][1..] == lines[i + 1..];
    }
    if Positive(lines) { EveryUnitIsPaid(lines); }
  }

  /** What a filled order leaves behind: exactly the summed demand is gone, nothing else changes. */
  lemma {:induction false} FilledStock(articles: map<Id, Article>, lines: seq<Line>, now: int)
    requires Take(articles, lines, now).Filled?
    ensures var left := Take(articles, lines, now).articles;
      && left.Keys == articles.Keys
      && KeySet(lines) <= articles.Keys
      && forall a | a in articles ::
           left[a] == if a in KeySet(lines) then Sell(articles[a], Demand(lines, a), now) else articles[a]
    ensures forall a | a in KeySet(lines) ::
      var was, now' := articles[a], Take(articles, lines, now).articles[a];
      && now'.quantity == was.quantity - Demand(lines, a) && now'.updated == now
      && now'.name == was.name && now'.price == was.price && now'.created == was.created
  {
    if lines == [] {
    } else {
      var l := lines[0];
      var next := articles[l.article := Sell(articles[l.article], l.quantity, now)];
      FilledStock(next, lines[1..], now);
      assert lines == [l] + lines[1..];
      assert KeySet(lines) == {l.article} + KeySet(lines[1..]);
      forall a | a !in KeySet(lines[1..]) ensures Demand(lines[1..], a) == 0 { NoDemand(lines[1..], a); }
    }
  }

  lemma NoDemand(lines: seq<Line>, a: Id)
    requires a !in KeySet(lines)
    ensures Demand(lines, a) == 0
  {
    if lines == [] {
    } else {
      assert lines[0] in lines;
      assert forall l | l in lines[1..] :: l in lines;
      NoDemand(lines[1..], a);
    }
  }

  /** A filled order never leaves a negative stock where there was none. */
  lemma {:induction false} NeverOversold(articles: map<Id, Article>, lines: seq<Line>, now: int, a: Id)
    requires Take(articles, lines, now).Filled?
    requires a in articles && articles[a].quantity >= 0
    ensures a in Take(articles, lines, now).articles && Take(articles, lines, now).articles[a].quantity >= 0
  {
    if lines == [] {
    } else {
      var l := lines[0];
      NeverOversold(articles[l.article := Sell(articles[l.article], l.quantity, now)], lines[1..], now, a);
    }
  }

  lemma DemandGrows(lines: seq<Line>, a: Id)
    requires Positive(lines)
    ensures Demand(lines, a) >= 0
    ensures a in KeySet(lines) ==> Demand(lines, a) > 0
  {
    if lines == [] {
    } else {
      assert lines == [lines[0]] + lines[1..];
      DemandGrows(lines[1..], a);
    }
  }

  predicate Covers(articles: map<Id, Article>, lines: seq<Line>) {
    forall a | a in KeySet(lines) :: a in articles && Demand(lines, a) <= articles[a].quantity
  }

  /** The greedy loop succeeds exactly when every article exists and covers its summed demand. */
  lemma {:induction false} GreedyEqualsAggregate(articles: map<Id, Article>, lines: seq<Line>, now: int)
    requires Positive(lines)
    ensures Take(articles, lines, now).Filled? <==> Covers(articles, lines)
  {
    if lines == [] {
    } else {
      var l, rest := lines[0], lines[1..];
      assert lines == [l] + rest;
      assert KeySet(lines) == {l.article} + KeySet(rest);
      DemandGrows(rest, l.article);
      if l.article in articles && articles[l.article].quantity >= l.quantity {
        var next := articles[l.article := Sell(articles[l.article], l.quantity, now)];
        GreedyEqualsAggregate(next, rest, now);
        if Covers(next, rest) {
          if l.article !in KeySet(rest) { NoDemand(rest, l.article); }
          forall a | a in KeySet(lines) ensures a in articles && Demand(lines, a) <= articles[a].quantity {
            assert a == l.article || a in KeySet(rest);
          }
        }
        if Covers(articles, lines) {
          forall a | a in KeySet(rest) ensures a in next && Demand(rest, a) <= next[a].quantity {
            assert a in KeySet(lines);
          }
        }
      } else {
        assert l.article in KeySet(lines);
      }
    }
  }

  /** A refusal names an article that cannot cover what the whole order asks of it. */
  lemma {:induction false} RefusalIsTrue(articles: map<Id, Article>, lines: seq<Line>, now: int)
    requires Positive(lines) && Take(articles, lines, now).Short?
    ensures var a := Take(articles, lines, now).article;
      a in KeySet(lines) && (a in articles ==> articles[a].quantity < Demand(lines, a))
  {
    var l, rest := lines[0], lines[1..];
    assert lines == [l] + rest;
    assert KeySet(lines) == {l.article} + KeySet(rest);
    DemandGrows(rest, l.article);
    if l.article !in articles || articles[l.article].quantity < l.quantity {
    } else {
      RefusalIsTrue(articles[l.article := Sell(articles[l.article], l.quantity, now)], rest, now);
    }
  }

  function Without<T>(s: seq<T>, i: nat): seq<T>
    requires i < |s|
  {
    s[..i] + s[i + 1..]
  }

  lemma WithoutMultiset<T>(s: seq<T>, i: nat)
    requires i < |s|
    ensures multiset(Without(s, i)) == multiset(s) - multiset{s[i]}
  {
    assert s == s[..i] + [s[i]] + s[i + 1..];
  }

  lemma DemandWithout(lines: seq<Line>, i: nat, a: Id)
    requires i < |lines|
    ensures Demand(lines, a) == Demand([lines[i]], a) + Demand(Without(lines, i), a)
  {
    DemandOfConcat(lines[..i], lines[i..], a);
    DemandOfConcat(lines[..i], lines[i + 1..], a);
    DemandOfConcat([lines[i]], lines[i + 1..], a);
    assert lines == lines[..i] + lines[i..];
    assert lines[i..] == [lines[i]] + lines[i + 1..];
  }

  lemma {:induction false} DemandOfPermutation(p: seq<Line>, q: seq<Line>, a: Id)
    requires multiset(p) == multiset(q)
    ensures Demand(p, a) == Demand(q, a)
    decreases |p|
  {
    if p == [] {
      assert |multiset(q)| == 0;
    } else {
      assert p[0] in multiset(q);
      var i :| 0 <= i < |q| && q[i] == p[0];
      WithoutMultiset(p, 0);
      WithoutMultiset(q, i);
      DemandWithout(p, 0, a);
      DemandWithout(q, i, a);
      DemandOfPermutation(Without(p, 0), Without(q, i), a);
    }
  }

  lemma DemandOfConcat(p: seq<Line>, q: seq<Line>, a: Id)
    ensures Demand(p + q, a) == Demand(p, a) + Demand(q, a)
  {
    if p == [] {
      assert p + q == q;
    } else {
      assert (p + q)[1..] == p[1..] + q;
      DemandOfConcat(p[1..], q, a);
    }
  }

  lemma TotalWithout(lines: seq<Line>, i: nat)
    requires i < |lines|
    ensures Total(lines) == Total([lines[i]]) + Total(Without(lines, i))
  {
    hide Total;
    TotalOfConcat(lines[..i], lines[i..]);
    TotalOfConcat(lines[..i], lines[i + 1..]);
    TotalOfConcat([lines[i]], lines[i + 1..]);
    assert lines == lines[..i] + lines[i..];
    assert lines[i..] == [lines[i]] + lines[i + 1..];
  }

  lemma {:induction false} TotalOfPermutation(p: seq<Line>, q: seq<Line>)
    requires multiset(p) == multiset(q)
    ensures Total(p) == Total(q)
    decreases |p|
  {
    if p == [] {
      assert |multiset(q)| == 0;
    } else {
      assert p[0] in multiset(q);
      var i :| 0 <= i < |q| && q[i] == p[0];
      WithoutMultiset(p, 0);
      WithoutMultiset(q, i);
      TotalWithout(p, 0);
      TotalWithout(q, i);
      TotalOfPermutation(Without(p, 0), Without(q, i));
    }
  }

  /** Neither the verdict, nor the stock left, nor the total depends on the order of the lines. */
  lemma {:induction false} LineOrderIrrelevant(articles: map<Id, Article>, p: seq<Line>, q: seq<Line>, now: int)
    requires Positive(p) && multiset(p) == multiset(q)
    ensures Take(articles, p, now).Filled? == Take(articles, q, now).Filled?
    ensures Take(articles, p, now).Filled? ==> Take(articles, p, now) == Take(articles, q, now)
    ensures Total(p) == Total(q)
  {
    TotalOfPermutation(p, q);
    forall l ensures l in p <==> l in q { assert l in p <==> l in multiset(p); assert l in q <==> l in multiset(q); }
    assert KeySet(p) == KeySet(q);
    forall a ensures Demand(p, a) == Demand(q, a) { DemandOfPermutation(p, q, a); }
    GreedyEqualsAggregate(articles, p, now);
    GreedyEqualsAggregate(articles, q, now);
    if Take(articles, p, now).Filled? {
      FilledStock(articles, p, now);
      FilledStock(articles, q, now);
      assert Take(articles, p, now).articles == Take(articles, q, now).articles;
    }
  }

  ghost function AnyKey(orders: map<Id, Order>): (id: Id)
    requires orders != map[]
    ensures id in orders
  {
    assert orders.Keys != {};
    var id :| id in orders; id
  }

  /** Units of `a` in all stored orders, whatever their status. */
  ghost function Sold(orders: map<Id, Order>, a: Id): int
    decreases |orders|
  {
    if orders == map[] then 0
    else var id := AnyKey(orders); Demand(orders[id].items, a) + Sold(orders - {id}, a)
  }

  lemma {:induction false} SoldSplit(orders: map<Id, Order>, id: Id, a: Id)
    requires id in orders
    ensures Sold(orders, a) == Demand(orders[id].items, a) + Sold(orders - {id}, a)
    decreases |orders|
  {
    var k := AnyKey(orders);
    if k == id {
    } else {
      SoldSplit(orders - {k}, id, a);
      SoldSplit(orders - {id}, k, a);
      assert orders - {k} - {id} == orders - {id} - {k};
    }
  }

  /** Storing an order whose items are new, or the same as before, changes the sum by the difference. */
  lemma SoldUpdate(orders: map<Id, Order>, id: Id, o: Order, a: Id)
    ensures Sold(orders[id := o], a) ==
      Sold(orders, a) + Demand(o.items, a) - if id in orders then Demand(orders[id].items, a) else 0
  {
    var after := orders[id := o];
    SoldSplit(after, id, a);
    assert after - {id} == orders - {id};
    if id in orders { SoldSplit(orders, id, a); } else { assert orders - {id} == orders; }
  }
}
