/** The PostgreSQL backend: rows in tables, changed by transactions; each operation is the atomic one of `Spec`. */
module Postgres {
  import opened Model
  import opened Stock
  import Spec

  datatype OrderRow = OrderRow(wallet: string, total: real, txHash: Option<string>, status: Status, created: int)

  datatype ItemRow = ItemRow(order: Id, line: Line)

  datatype CreateResult = Created(order: Order) | UnknownArticle(article: Id) | Insufficient(article: Id)

  datatype UpdateResult = Updated | OrderNotFound | TxHashReused

  /** SELECT from order_items WHERE order_id = id. */
  function ItemsOf(rows: seq<ItemRow>, id: Id): seq<Line> {
    if rows == [] then []
    else
      var n := |rows| - 1;
      ItemsOf(rows[..n], id) + if rows[n].order == id then [rows[n].line] else []
  }

  lemma ItemsOfAppended(rows: seq<ItemRow>, more: seq<ItemRow>, id: Id)
    ensures ItemsOf(rows + more, id) == ItemsOf(rows, id) + ItemsOf(more, id)
  {
    if more == [] {
      assert rows + more == rows;
    } else {
      var n := |more| - 1;
      assert (rows + more)[..|rows| + n] == rows + more[..n];
      ItemsOfAppended(rows, more[..n], id);
    }
  }

  function RowsFor(id: Id, lines: seq<Line>): seq<ItemRow> {
    seq(|lines|, i requires 0 <= i < |lines| => ItemRow(id, lines[i]))
  }

  lemma ItemsOfRowsFor(id: Id, lines: seq<Line>, k: Id)
    ensures ItemsOf(RowsFor(id, lines), k) == if k == id then lines else []
  {
    if lines == [] {
    } else {
      var n := |lines| - 1;
      assert RowsFor(id, lines)[..n] == RowsFor(id, lines[..n]);
      ItemsOfRowsFor(id, lines[..n], k);
      assert lines == lines[..n] + [lines[n]];
    }
  }

  lemma NoItems(rows: seq<ItemRow>, id: Id)
    requires forall r | r in rows :: r.order != id
    ensures ItemsOf(rows, id) == []
  {
    if rows == [] {
    } else {
      assert rows[|rows| - 1] in rows; NoItems(rows[..|rows| - 1], id);
    }
  }

  function Document(row: OrderRow, items: seq<Line>): Order {
    Order(row.wallet, row.total, row.txHash, row.status, items, row.created)
  }

  /** The orders as documents: every row joined with its item rows. */
  function Documents(orders: map<Id, OrderRow>, items: seq<ItemRow>): map<Id, Order> {
    map id | id in orders :: Document(orders[id], ItemsOf(items, id))
  }

  lemma InsertedItems(items: seq<ItemRow>, id: Id, lines: seq<Line>, k: Id)
    requires forall r | r in items :: r.order != id
    ensures ItemsOf(items + RowsFor(id, lines), k) == if k == id then lines else ItemsOf(items, k)
  {
    ItemsOfAppended(items, RowsFor(id, lines), k);
    ItemsOfRowsFor(id, lines, k);
    NoItems(items, id);
  }

  lemma SameDocuments(orders: map<Id, OrderRow>, items: seq<ItemRow>, items': seq<ItemRow>)
    requires forall k | k in orders :: ItemsOf(items, k) == ItemsOf(items', k)
    ensures Documents(orders, items) == Documents(orders, items')
  {
  }

  lemma InsertedRow(orders: map<Id, OrderRow>, items: seq<ItemRow>, id: Id, row: OrderRow)
    ensures Documents(orders[id := row], items) == Documents(orders, items)[id := Document(row, ItemsOf(items, id))]
  {
    assert Documents(orders[id := row], items).Keys == Documents(orders, items).Keys + {id};
  }

  /** Inserting an order row and its item rows adds exactly that document. */
  lemma {:induction false} InsertedView(orders: map<Id, OrderRow>, items: seq<ItemRow>, id: Id, row: OrderRow,
      lines: seq<Line>)
    requires id !in orders && forall r | r in items :: r.order in orders
    ensures Documents(orders[id := row], items + RowsFor(id, lines)) ==
      Documents(orders, items)[id := Document(row, lines)]
  {
    var rows := items + RowsFor(id, lines);
    assert forall r | r in items :: r.order != id;
    InsertedRow(orders, rows, id, row);
    InsertedItems(items, id, lines, id);
    forall k | k in orders ensures ItemsOf(items, k) == ItemsOf(rows, k) { InsertedItems(items, id, lines, k); }
    SameDocuments(orders, items, rows);
  }

  class Database {
    var articles: map<Id, Article>
    var orders: map<Id, OrderRow>
    var items: seq<ItemRow>

    constructor ()
      ensures Valid() && View() == Spec.Shop(map[], map[])
    {
      articles, orders, items := map[], map[], [];
    }

    /** The foreign key of order_items and the unique index on tx_hash. */
    ghost predicate Valid()
      reads this
    {
      && (forall r | r in items :: r.order in orders)
      && (forall p, q | p in orders && q in orders && orders[p].txHash.Some? &&
        orders[p].txHash == orders[q].txHash :: p == q)
    }

    function View(): Spec.Shop
      reads this
    {
      Spec.Shop(articles, Documents(orders, items))
    }

    static method SumLines(lines: seq<Line>) returns (total: real)
      ensures total == Total(lines)
      ensures Positive(lines) ==> total == Sum(UnitPrices(lines))
    {
      total := 0.0;
      for i := 0 to |lines|
        invariant total + Total(lines[i..]) == Total(lines)
      {
        total := total + lines[i].price * (lines[i].quantity as real);
        assert lines[i..][1..] == lines[i + 1..];
      }
      if Positive(lines) { EveryUnitIsPaid(lines); }
    }

    /** The order is created with its stock taken, or the rollback leaves every table as it was. */
    method Create(wallet: string, lines: seq<Line>, id: Id, created: int, now: int) returns (r: CreateResult)
      requires Valid() && id !in orders
      modifies this
      ensures Valid()
      ensures View() == Spec.Perform(old(View()), Spec.Place(wallet, lines, id, created, now))
      ensures r.Created? <==> Take(old(articles), lines, now).Filled?
      ensures r.Created? ==> id in View().orders && r.order == View().orders[id]
      ensures r.Created? && Positive(lines) ==> r.order.total == Sum(UnitPrices(lines))
      ensures !r.Created? ==> articles == old(articles) && orders == old(orders) && items == old(items)
      ensures !r.Created? ==> Take(old(articles), lines, now) == Short(r.article)
      ensures r.UnknownArticle? ==> r.article !in old(articles)
      ensures r.Insufficient? ==> r.article in old(articles)
    {
      var articles0, orders0, items0 := articles, orders, items;

      var total := SumLines(lines);
      var row := OrderRow(wallet, total, None, Pending, created);
      orders := orders[id := row];
      var docItems := [];
      for i := 0 to |lines|
        invariant articles0 == old(articles) && orders0 == old(orders) && items0 == old(items)
        invariant Take(articles0, lines, now) == Take(articles, lines[i..], now)
        invariant articles.Keys == articles0.Keys
        invariant orders == orders0[id := row] && docItems == lines[..i]
        invariant items == items0 + RowsFor(id, lines[..i])
      {
        var item := lines[i];
        if item.article !in articles {
          articles, orders, items := articles0, orders0, items0;
          return UnknownArticle(item.article);
        }
        items := items + [ItemRow(id, item)];
        docItems := docItems + [item];
        assert RowsFor(id, lines[..i + 1]) == RowsFor(id, lines[..i]) + [ItemRow(id, item)];
        if articles[item.article].quantity < item.quantity {
          articles, orders, items := articles0, orders0, items0;
          return Insufficient(item.article);
        }
        articles := articles[item.article := Sell(articles[item.article], item.quantity, now)];
        assert lines[i..][1..] == lines[i + 1..];
      }
      assert lines[..|lines|] == lines;
      r := Created(Document(row, docItems));
      InsertedView(orders0, items0, id, row, lines);
    }

    /** UPDATE orders under the unique index: refused exactly when another row holds the hash. */
    method UpdateStatus(id: Id, status: Status, hash: Option<string>) returns (r: UpdateResult)
      requires Valid()
      modifies this
      ensures Valid()
      ensures r.OrderNotFound? <==> id !in old(orders)
      ensures r.TxHashReused? <==> (id in old(orders) && hash.Some? &&
        exists k :: k in old(orders) && k != id && old(orders)[k].txHash == hash)
      ensures View() == if r.Updated? then Spec.Perform(old(View()), Spec.Settle(id, status, hash)) else old(View())
    {
      if id !in orders { return OrderNotFound; }
      if hash.Some? && exists k :: k in orders && k != id && orders[k].txHash == hash { return TxHashReused; }
      orders := orders[id := orders[id].(status := status, txHash := hash)];
      r := Updated;
      InsertedRow(old(orders), items, id, orders[id]);
    }

    /** What SELECT from order_items WHERE order_id = ANY(ids) returns: the matching rows, in any order. */
    ghost predicate Selected(rows: seq<ItemRow>, ids: seq<Id>)
      reads this
    {
      forall row :: multiset(rows)[row] == if row.order in ids then multiset(items)[row] else 0
    }

    /** The second half of List: group the selected rows by order, then hand each listed order its group. */
    method LoadItems(ids: seq<Id>, rows: seq<ItemRow>) returns (result: seq<seq<Line>>)
      requires Selected(rows, ids) && forall id | id in ids :: id in orders
      ensures |result| == |ids|
      ensures forall i | 0 <= i < |ids| :: result[i] == ItemsOf(rows, ids[i])
      ensures forall i | 0 <= i < |ids| :: multiset(result[i]) == multiset(View().orders[ids[i]].items)
    {
      var byOrder := GroupItems(rows);
      hide Selected;
      result := seq(|ids|, i requires 0 <= i < |ids| => if ids[i] in byOrder then byOrder[ids[i]] else []);
      forall i | 0 <= i < |ids| ensures multiset(result[i]) == multiset(View().orders[ids[i]].items) {
        assert ids[i] in ids;
        SelectedItems(ids, rows, ids[i]);
      }
    }

    static method GroupItems(rows: seq<ItemRow>) returns (byOrder: map<Id, seq<Line>>)
      ensures forall k :: (if k in byOrder then byOrder[k] else []) == ItemsOf(rows, k)
    {
      byOrder := map[];
      for i := 0 to |rows|
        invariant forall k :: (if k in byOrder then byOrder[k] else []) == ItemsOf(rows[..i], k)
      {
        var row := rows[i];
        assert rows[..i + 1][..i] == rows[..i];
        byOrder := byOrder[row.order := (if row.order in byOrder then byOrder[row.order] else []) + [row.line]];
      }
      assert rows[..|rows|] == rows;
    }

    lemma SelectedItems(ids: seq<Id>, rows: seq<ItemRow>, id: Id)
      requires Selected(rows, ids) && id in ids && id in orders
      ensures multiset(ItemsOf(rows, id)) == multiset(View().orders[id].items)
    {
      SameRowsSameItems(rows, items, id);
    }
  }

  lemma {:induction false} ItemsCount(rows: seq<ItemRow>, id: Id, line: Line)
    ensures multiset(ItemsOf(rows, id))[line] == multiset(rows)[ItemRow(id, line)]
  {
    if rows == [] {
    } else {
      var n := |rows| - 1;
      ItemsCount(rows[..n], id, line);
      CountAppended(rows[..n], rows[n], ItemRow(id, line));
      CountAppended(ItemsOf(rows[..n], id), rows[n].line, line);
      assert rows == rows[..n] + [rows[n]];
    }
  }

  lemma CountAppended<T>(s: seq<T>, x: T, y: T)
    ensures multiset(s + [x])[y] == multiset(s)[y] + if x == y then 1 else 0
    ensures s + [] == s
  {
  }

  lemma SameRowsSameItems(p: seq<ItemRow>, q: seq<ItemRow>, id: Id)
    requires forall line :: multiset(p)[ItemRow(id, line)] == multiset(q)[ItemRow(id, line)]
    ensures multiset(ItemsOf(p, id)) == multiset(ItemsOf(q, id))
  {
    forall line ensures multiset(ItemsOf(p, id))[line] == multiset(ItemsOf(q, id))[line] {
      ItemsCount(p, id, line);
      ItemsCount(q, id, line);
    }
  }
}
