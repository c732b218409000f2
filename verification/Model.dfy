/** The entities of the shop, shared by both persistence backends. */
module Model {

  datatype Option<+T> = None | Some(value: T)

  // UUIDs; the order of identifiers stands for the lexicographic order of their text.
  type Id = nat

  datatype Status = Pending | Paid | Failed

  // One requested line of an order, resolved to a price; stored unchanged as an order item.
  datatype Line = Line(article: Id, quantity: int, price: real)

  datatype Article = Article(name: string, quantity: int, price: real, created: int, updated: int)

  datatype Order = Order(
    wallet: string, total: real, txHash: Option<string>, status: Status, items: seq<Line>, created: int)

  function Lookup<K, V>(m: map<K, V>, k: K): Option<V> {
    if k in m then Some(m[k]) else None
  }
}
