/** The shop as its callers see it: every operation is one atomic step on articles and orders. */
module Spec {
  import opened Model
  import opened Stock

  datatype Shop = Shop(articles: map<Id, Article>, orders: map<Id, Order>)

  datatype Op =
    | Skip
    | Place(wallet: string, lines: seq<Line>, id: Id, created: int, now: int)
    | Settle(order: Id, status: Status, hash: Option<string>)
    | PutArticle(article: Id, value: Article)
    | DropArticle(article: Id)

  function NewOrder(wallet: string, lines: seq<Line>, created: int): Order {
    Order(wallet, Total(lines), None, Pending, lines, created)
  }

  function Perform(shop: Shop, op: Op): Shop {
    match op
    case Skip => shop
    case Place(wallet, lines, id, created, now) =>
      (match Take(shop.articles, lines, now)
       case Short(_) => shop
       case Filled(left) => Shop(left, shop.orders[id := NewOrder(wallet, lines, created)]))
    case Settle(id, status, hash) =>
      if id in shop.orders
      then shop.(orders := shop.orders[id := shop.orders[id].(status := status, txHash := hash)])
      else shop
    case PutArticle(a, value) => shop.(articles := shop.articles[a := value])
    case DropArticle(a) => shop.(articles := shop.articles - {a})
  }

  function PerformAll(shop: Shop, ops: seq<Op>): Shop {
    if ops == [] then shop else Perform(PerformAll(shop, ops[..|ops| - 1]), ops[|ops| - 1])
  }

  /** The catalogue owner does not touch `a`, and new orders get new identifiers. */
  predicate Undisturbed(shop: Shop, op: Op, a: Id) {
    match op
    case PutArticle(b, _) => b != a
    case DropArticle(b) => b != a
    case Place(_, _, id, _, _) => id !in shop.orders
    case _ => true
  }

  /** One step conserves units: what leaves the stock is in an order, and stock stays non-negative. */
  lemma {:induction false} StepConserves(shop: Shop, op: Op, a: Id)
    requires a in shop.articles && Undisturbed(shop, op, a)
    ensures var after := Perform(shop, op);
      && a in after.articles
      && after.articles[a].quantity + Sold(after.orders, a) == shop.articles[a].quantity + Sold(shop.orders, a)
      && (shop.articles[a].quantity >= 0 ==> after.articles[a].quantity >= 0)
  {
    match op
    case Place(wallet, lines, id, created, now) =>
      if Take(shop.articles, lines, now).Filled? {
        FilledStock(shop.articles, lines, now);
        if a !in KeySet(lines) { NoDemand(lines, a); }
        if shop.articles[a].quantity >= 0 { NeverOversold(shop.articles, lines, now, a); }
        SoldUpdate(shop.orders, id, NewOrder(wallet, lines, created), a);
      }
    case Settle(id, status, hash) =>
      if id in shop.orders {
        SoldUpdate(shop.orders, id, shop.orders[id].(status := status, txHash := hash), a);
      }
    case _ =>
  }

  ghost predicate AllUndisturbed(shop: Shop, ops: seq<Op>, a: Id) {
    forall i | 0 <= i < |ops| :: Undisturbed(PerformAll(shop, ops[..i]), ops[i], a)
  }

  /** Conservation over whole runs of atomic operations. */
  lemma {:induction false} RunConserves(shop: Shop, ops: seq<Op>, a: Id)
    requires a in shop.articles && AllUndisturbed(shop, ops, a)
    ensures var after := PerformAll(shop, ops);
      && a in after.articles
      && after.articles[a].quantity + Sold(after.orders, a) == shop.articles[a].quantity + Sold(shop.orders, a)
      && (shop.articles[a].quantity >= 0 ==> after.articles[a].quantity >= 0)
  {
    if ops == [] {
    } else {
      var n := |ops| - 1;
      forall i | 0 <= i < n ensures Undisturbed(PerformAll(shop, ops[..n][..i]), ops[..n][i], a) {
        assert ops[..n][..i] == ops[..i];
        assert Undisturbed(PerformAll(shop, ops[..i]), ops[i], a);
      }
      RunConserves(shop, ops[..n], a);
      StepConserves(PerformAll(shop, ops[..n]), ops[n], a);
    }
  }
}
