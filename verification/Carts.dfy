/** The in-memory cart store with eviction of abandoned carts and an observer of the number of carts. */
module Carts {
  import opened Model

  datatype Entry = Entry(items: map<Id, int>, updatedAt: int)

  // The carts by wallet, and every value the observer was called with.
  datatype Shelf = Shelf(carts: map<string, Entry>, observed: seq<nat>)

  datatype Item = Item(article: Id, quantity: int)

  // ---------- one operation ----------

  function Notified(s: Shelf): Shelf {
    s.(observed := s.observed + [|s.carts|])
  }

  function Plus(items: map<Id, int>, a: Id, quantity: int): map<Id, int> {
    items[a := (if a in items then items[a] else 0) + quantity]
  }

  function Added(s: Shelf, w: string, a: Id, quantity: int, now: int): Shelf {
    if w in s.carts then s.(carts := s.carts[w := Entry(Plus(s.carts[w].items, a, quantity), now)])
    else Notified(s.(carts := s.carts[w := Entry(map[a := quantity], now)]))
  }

  predicate Holds(s: Shelf, w: string, a: Id) {
    w in s.carts && a in s.carts[w].items
  }

  function Removed(s: Shelf, w: string, a: Id, now: int): Shelf {
    if !Holds(s, w, a) then s
    else
      var rest := s.carts[w].items - {a};
      if rest == map[] then Notified(s.(carts := s.carts - {w}))
      else s.(carts := s.carts[w := Entry(rest, now)])
  }

  function Cleared(s: Shelf, w: string): Shelf {
    if w in s.carts then Notified(s.(carts := s.carts - {w})) else s
  }

  function Older(carts: map<string, Entry>, cutoff: int): (r: set<string>)
    ensures r <= carts.Keys
  {
    set w | w in carts && carts[w].updatedAt < cutoff
  }

  function Evicted(s: Shelf, cutoff: int): Shelf {
    if Older(s.carts, cutoff) == {} then s else Notified(s.(carts := s.carts - Older(s.carts, cutoff)))
  }

  lemma OlderIff(carts: map<string, Entry>, cutoff: int, w: string)
    ensures w in Older(carts, cutoff) <==> w in carts && carts[w].updatedAt < cutoff
  {
  }

  lemma ExpiredNext(expired: set<string>, keys: set<string>, w: string)
    requires w in keys
    ensures expired - (keys - {w}) == if w in expired then expired - keys + {w} else expired - keys
    ensures w !in expired - keys
  {
  }

  lemma DropNext(carts: map<string, Entry>, gone: set<string>, w: string)
    ensures carts - gone - {w} == carts - (gone + {w})
  {
  }

  class Store {
    const ttl: int
    var data: map<string, Entry>
    var observed: seq<nat>

    constructor (ttl: int)
      ensures this.ttl == ttl && Content() == Shelf(map[], [])
    {
      this.ttl, data, observed := ttl, map[], [];
    }

    function Content(): Shelf
      reads this
    {
      Shelf(data, observed)
    }

    method Notify()
      modifies this`observed
      ensures Content() == Notified(old(Content()))
    {
      observed := observed + [|data|];
    }

    method Add(w: string, a: Id, quantity: int, now: int)
      modifies this
      ensures Content() == Added(old(Content()), w, a, quantity, now)
    {
      var known := w in data;
      if !known { data := data[w := Entry(map[], now)]; }
      var items := data[w].items;
      data := data[w := Entry(items[a := (if a in items then items[a] else 0) + quantity], now)];
      if !known {
        Notify();
        assert data == old(data)[w := Entry(map[a := quantity], now)];
      }
    }

    method Remove(w: string, a: Id, now: int) returns (found: bool)
      modifies this
      ensures found == Holds(old(Content()), w, a)
      ensures Content() == Removed(old(Content()), w, a, now)
    {
      if w !in data || a !in data[w].items { return false; }
      var rest := data[w].items - {a};
      if |rest| == 0 {
        data := data - {w};
        Notify();
      } else {
        data := data[w := Entry(rest, now)];
      }
      found := true;
    }

    method Clear(w: string)
      modifies this
      ensures Content() == Cleared(old(Content()), w)
    {
      if w in data {
        data := data - {w};
        Notify();
      }
    }

    /** One item for each line of the cart, in no particular order. */
    method Get(w: string) returns (items: seq<Item>)
      ensures forall i, j | 0 <= i < j < |items| :: items[i].article != items[j].article
      ensures forall a, q :: Item(a, q) in items <==> Holds(Content(), w, a) && data[w].items[a] == q
    {
      items := [];
      if w !in data { return; }
      var lines := data[w].items;
      var keys := lines.Keys;
      while keys != {}
        invariant keys <= lines.Keys
        invariant forall i, j | 0 <= i < j < |items| :: items[i].article != items[j].article
        invariant forall a, q :: Item(a, q) in items <==> a in lines && a !in keys && lines[a] == q
        decreases keys
      {
        var a :| a in keys;
        keys := keys - {a};
        forall i | 0 <= i < |items| ensures items[i].article != a {
          assert items[i] == Item(items[i].article, items[i].quantity);
          assert items[i] in items;
        }
        items := items + [Item(a, lines[a])];
      }
    }

    /** The clock is read before the lock is taken: `readAt` may lie before the last changes to the data. */
    method EvictExpired(readAt: int) returns (removed: nat)
      modifies this
      ensures ttl <= 0 ==> removed == 0 && Content() == old(Content())
      ensures ttl > 0 ==> Content() == Evicted(old(Content()), readAt - ttl)
      ensures ttl > 0 ==> removed == |Older(old(Content()).carts, readAt - ttl)|
    {
      if ttl <= 0 { return 0; }
      data, removed := DeleteOlder(data, readAt - ttl);
      if removed > 0 { Notify(); }
    }

    static method DeleteOlder(carts: map<string, Entry>, cutoff: int) returns (left: map<string, Entry>, removed: nat)
      ensures left == carts - Older(carts, cutoff)
      ensures removed == |Older(carts, cutoff)|
    {
      hide Older;
      left, removed := carts, 0;
      ghost var gone: set<string> := {};
      var keys := carts.Keys;
      while keys != {}
        invariant keys <= carts.Keys
        invariant gone == Older(carts, cutoff) - keys && removed == |gone|
        invariant left == carts - gone
        decreases keys
      {
        var w :| w in keys;
        ExpiredNext(Older(carts, cutoff), keys, w);
        OlderIff(carts, cutoff, w);
        keys := keys - {w};
        if left[w].updatedAt < cutoff {
          DropNext(carts, gone, w);
          left := left - {w};
          removed := removed + 1;
          gone := gone + {w};
        }
      }
      assert gone == Older(carts, cutoff);
    }
  }

  // ---------- runs ----------

  datatype Op =
    | Adding(w: string, a: Id, quantity: int, now: int)
    | Removing(w: string, a: Id, now: int)
    | Clearing(w: string)
    | Evicting(cutoff: int)

  function Step(s: Shelf, op: Op): Shelf {
    match op
    case Adding(w, a, quantity, now) => Added(s, w, a, quantity, now)
    case Removing(w, a, now) => Removed(s, w, a, now)
    case Clearing(w) => Cleared(s, w)
    case Evicting(cutoff) => Evicted(s, cutoff)
  }

  function Run(ops: seq<Op>): Shelf {
    if ops == [] then Shelf(map[], []) else Step(Run(ops[..|ops| - 1]), ops[|ops| - 1])
  }

  /** A line told from the history alone: the sum of its adds since it was last removed, cleared or evicted. */
  function Line(ops: seq<Op>, w: string, a: Id): Option<int>
    decreases |ops|, 0
  {
    if ops == [] then None
    else
      var n := |ops| - 1;
      var before := Line(ops[..n], w, a);
      match ops[n]
      case Adding(w', a', quantity, _) =>
        if w' == w && a' == a then Some((if before.Some? then before.value else 0) + quantity) else before
      case Removing(w', a', _) => if w' == w && a' == a then None else before
      case Clearing(w') => if w' == w then None else before
      case Evicting(cutoff) => if LastTouch(ops[..n], w) < cutoff then None else before
  }

  /** The time of the last add to the wallet's cart, or of the last removal of a line that was there. */
  function LastTouch(ops: seq<Op>, w: string): int
    decreases |ops|, 1
  {
    if ops == [] then 0
    else
      var n := |ops| - 1;
      match ops[n]
      case Adding(w', _, _, now) => if w' == w then now else LastTouch(ops[..n], w)
      case Removing(w', a, now) => if w' == w && Line(ops[..n], w, a).Some? then now else LastTouch(ops[..n], w)
      case _ => LastTouch(ops[..n], w)
  }

  function LineOf(s: Shelf, w: string, a: Id): Option<int> {
    if w in s.carts then Lookup(s.carts[w].items, a) else None
  }

  ghost predicate TellsHistory(s: Shelf, ops: seq<Op>) {
    && (forall w | w in s.carts :: s.carts[w].items != map[] && s.carts[w].updatedAt == LastTouch(ops, w))
    && (forall w, a :: LineOf(s, w, a) == Line(ops, w, a))
  }

  /** What the history says after one more operation. */
  lemma HistoryNext(ops: seq<Op>, op: Op, w: string, a: Id)
    ensures Line(ops + [op], w, a) == (
      match op
      case Adding(w', a', quantity, _) =>
        if w' == w && a' == a then Some((if Line(ops, w, a).Some? then Line(ops, w, a).value else 0) + quantity)
        else Line(ops, w, a)
      case Removing(w', a', _) => if w' == w && a' == a then None else Line(ops, w, a)
      case Clearing(w') => if w' == w then None else Line(ops, w, a)
      case Evicting(cutoff) => if LastTouch(ops, w) < cutoff then None else Line(ops, w, a))
    ensures LastTouch(ops + [op], w) == (
      match op
      case Adding(w', _, _, now) => if w' == w then now else LastTouch(ops, w)
      case Removing(w', a', now) => if w' == w && Line(ops, w, a').Some? then now else LastTouch(ops, w)
      case _ => LastTouch(ops, w))
  {
    assert (ops + [op])[..|ops|] == ops;
  }

  lemma AddedLine(s: Shelf, w: string, a: Id, quantity: int, now: int, v: string, b: Id)
    ensures LineOf(Added(s, w, a, quantity, now), v, b) ==
      if v == w && b == a then Some((if LineOf(s, w, a).Some? then LineOf(s, w, a).value else 0) + quantity)
      else LineOf(s, v, b)
  {
  }

  lemma RemovedLine(s: Shelf, w: string, a: Id, now: int, v: string, b: Id)
    ensures LineOf(Removed(s, w, a, now), v, b) == if v == w && b == a then None else LineOf(s, v, b)
  {
    if Holds(s, w, a) && v == w && b != a {
      var rest := s.carts[w].items - {a};
      assert b in rest <==> b in s.carts[w].items;
    }
  }

  lemma AddTells(s: Shelf, ops: seq<Op>, w: string, a: Id, quantity: int, now: int)
    requires TellsHistory(s, ops)
    ensures TellsHistory(Added(s, w, a, quantity, now), ops + [Adding(w, a, quantity, now)])
  {
    var s', op := Added(s, w, a, quantity, now), Adding(w, a, quantity, now);
    assert LineOf(s, w, a) == Line(ops, w, a);
    forall v, b ensures LineOf(s', v, b) == Line(ops + [op], v, b) {
      HistoryNext(ops, op, v, b);
      AddedLine(s, w, a, quantity, now, v, b);
      assert LineOf(s, v, b) == Line(ops, v, b);
    }
    forall v | v in s'.carts ensures s'.carts[v].items != map[] && s'.carts[v].updatedAt == LastTouch(ops + [op], v) {
      HistoryNext(ops, op, v, a);
      if v == w { assert a in s'.carts[v].items; }
    }
  }

  lemma RemoveTells(s: Shelf, ops: seq<Op>, w: string, a: Id, now: int)
    requires TellsHistory(s, ops)
    ensures TellsHistory(Removed(s, w, a, now), ops + [Removing(w, a, now)])
  {
    var s', op := Removed(s, w, a, now), Removing(w, a, now);
    assert LineOf(s, w, a) == Line(ops, w, a);
    forall v, b ensures LineOf(s', v, b) == Line(ops + [op], v, b) {
      HistoryNext(ops, op, v, b);
      RemovedLine(s, w, a, now, v, b);
      assert LineOf(s, v, b) == Line(ops, v, b);
    }
    forall v | v in s'.carts ensures s'.carts[v].items != map[] && s'.carts[v].updatedAt == LastTouch(ops + [op], v) {
      HistoryNext(ops, op, v, a);
    }
  }

  /** Clearing and evicting drop whole carts. */
  lemma DropTells(s: Shelf, ops: seq<Op>, op: Op, s': Shelf, gone: set<string>)
    requires TellsHistory(s, ops) && s'.carts == s.carts - gone
    requires (op.Clearing? && gone == {op.w}) || (op.Evicting? && gone == Older(s.carts, op.cutoff))
    ensures TellsHistory(s', ops + [op])
  {
    forall v, b ensures LineOf(s', v, b) == Line(ops + [op], v, b) {
      HistoryNext(ops, op, v, b);
      assert LineOf(s, v, b) == Line(ops, v, b);
    }
    forall v | v in s'.carts ensures s'.carts[v].items != map[] && s'.carts[v].updatedAt == LastTouch(ops + [op], v) {
      HistoryNext(ops, op, v, 0);
    }
  }

  lemma StepTells(s: Shelf, ops: seq<Op>, op: Op)
    requires TellsHistory(s, ops)
    ensures TellsHistory(Step(s, op), ops + [op])
  {
    match op
    case Adding(w, a, quantity, now) => AddTells(s, ops, w, a, quantity, now);
    case Removing(w, a, now) => RemoveTells(s, ops, w, a, now);
    case Clearing(w) =>
      if w !in s.carts { assert s.carts - {w} == s.carts; }
      DropTells(s, ops, op, Step(s, op), {w});
    case Evicting(cutoff) =>
      if Older(s.carts, cutoff) == {} { assert s.carts - {} == s.carts; }
      DropTells(s, ops, op, Step(s, op), Older(s.carts, cutoff));
  }

  /** Over every run: no stored cart is empty, and each line is the sum its history says. */
  lemma {:induction false} CartsTellHistory(ops: seq<Op>)
    ensures TellsHistory(Run(ops), ops)
  {
    if ops == [] {
    } else {
      var n := |ops| - 1;
      assert ops == ops[..n] + [ops[n]];
      CartsTellHistory(ops[..n]);
      StepTells(Run(ops[..n]), ops[..n], ops[n]);
    }
  }

  /** What the observer last heard; before the first call the store is empty. */
  function LastObserved(s: Shelf): nat {
    if s.observed == [] then 0 else s.observed[|s.observed| - 1]
  }

  predicate ObserverCurrent(s: Shelf) {
    && LastObserved(s) == |s.carts|
    && (s.observed != [] ==> s.observed[0] != 0)
    && forall i | 0 <= i < |s.observed| - 1 :: s.observed[i] != s.observed[i + 1]
  }

  lemma NotifiedCurrent(s: Shelf, carts: map<string, Entry>)
    requires ObserverCurrent(s) && |carts| != |s.carts|
    ensures ObserverCurrent(Notified(s.(carts := carts)))
  {
  }

  lemma RemovedCount(carts: map<string, Entry>, gone: set<string>)
    requires gone <= carts.Keys
    ensures |carts - gone| == |carts| - |gone|
  {
    assert (carts - gone).Keys == carts.Keys - gone;
    assert |carts.Keys - gone| == |carts.Keys| - |gone|;
  }

  /** The observer's last value is always the number of carts, and it is never told the same number twice in a row. */
  lemma {:induction false} ObserverFollows(ops: seq<Op>)
    ensures ObserverCurrent(Run(ops))
  {
    if ops == [] {
    } else {
      var n := |ops| - 1;
      var s, op := Run(ops[..n]), ops[n];
      ObserverFollows(ops[..n]);
      match op
      case Adding(w, a, quantity, now) =>
        if w in s.carts { assert s.carts[w := Entry(Plus(s.carts[w].items, a, quantity), now)].Keys == s.carts.Keys; }
        else { NotifiedCurrent(s, s.carts[w := Entry(map[a := quantity], now)]); }
      case Removing(w, a, now) =>
        if Holds(s, w, a) {
          if s.carts[w].items - {a} == map[] {
            RemovedCount(s.carts, {w});
            NotifiedCurrent(s, s.carts - {w});
          } else {
            assert s.carts[w := Entry(s.carts[w].items - {a}, now)].Keys == s.carts.Keys;
          }
        }
      case Clearing(w) =>
        if w in s.carts { RemovedCount(s.carts, {w}); NotifiedCurrent(s, s.carts - {w}); }
      case Evicting(cutoff) =>
        RemovedCount(s.carts, Older(s.carts, cutoff));
        if Older(s.carts, cutoff) != {} { NotifiedCurrent(s, s.carts - Older(s.carts, cutoff)); }
    }
  }

  /** The numbers of carts the store went through, one for each change. */
  function Counts(ops: seq<Op>): seq<nat> {
    if ops == [] then []
    else
      var before, after := Run(ops[..|ops| - 1]).carts, Run(ops).carts;
      Counts(ops[..|ops| - 1]) + if |after| != |before| then [|after|] else []
  }

  /** The observer is told every change of the number of carts, once, in order, and nothing else. */
  lemma {:induction false} ObserverHearsEveryChange(ops: seq<Op>)
    ensures Run(ops).observed == Counts(ops)
  {
    if ops == [] {
    } else {
      var n := |ops| - 1;
      ObserverHearsEveryChange(ops[..n]);
      StepObserved(Run(ops[..n]), ops[n]);
      assert HearsChange(Run(ops[..n]), Run(ops));
    }
  }

  predicate HearsChange(s: Shelf, r: Shelf) {
    r.observed == s.observed + if |r.carts| != |s.carts| then [|r.carts|] else []
  }

  lemma StepObserved(s: Shelf, op: Op)
    ensures HearsChange(s, Step(s, op))
  {
    hide HearsChange;
    match op
    case Adding(w, a, quantity, now) => AddObserved(s, w, a, quantity, now);
    case Removing(w, a, now) => RemoveObserved(s, w, a, now);
    case Clearing(w) => if w in s.carts { DropObserved(s, {w}); } else { SameObserved(s, s.carts); }
    case Evicting(cutoff) =>
      if Older(s.carts, cutoff) != {} { DropObserved(s, Older(s.carts, cutoff)); } else { SameObserved(s, s.carts); }
  }

  lemma AddObserved(s: Shelf, w: string, a: Id, quantity: int, now: int)
    ensures HearsChange(s, Added(s, w, a, quantity, now))
  {
    if w in s.carts { SameObserved(s, s.carts[w := Entry(Plus(s.carts[w].items, a, quantity), now)]); }
  }

  lemma RemoveObserved(s: Shelf, w: string, a: Id, now: int)
    ensures HearsChange(s, Removed(s, w, a, now))
  {
    hide HearsChange;
    if !Holds(s, w, a) {
      SameObserved(s, s.carts);
    } else if s.carts[w].items - {a} == map[] {
      DropObserved(s, {w});
    } else {
      SameObserved(s, s.carts[w := Entry(s.carts[w].items - {a}, now)]);
    }
  }

  lemma SameObserved(s: Shelf, carts: map<string, Entry>)
    requires carts.Keys == s.carts.Keys
    ensures HearsChange(s, s.(carts := carts))
  {
    assert |carts.Keys| == |s.carts.Keys| && s.observed + [] == s.observed;
  }

  lemma DropObserved(s: Shelf, gone: set<string>)
    requires gone <= s.carts.Keys && gone != {}
    ensures HearsChange(s, Notified(s.(carts := s.carts - gone)))
  {
    RemovedCount(s.carts, gone);
  }

  /** What a line is worth: one add gives its quantity, and adds add up. */
  lemma AddsAddUp(ops: seq<Op>, w: string, a: Id, m: int, n: int, t: int, u: int)
    ensures Line([Adding(w, a, n, t)], w, a) == Some(n)
    ensures Line(ops + [Adding(w, a, m, t)] + [Adding(w, a, n, u)], w, a) == Line(ops + [Adding(w, a, m + n, u)], w, a)
  {
    HistoryNext([], Adding(w, a, n, t), w, a);
    assert [] + [Adding(w, a, n, t)] == [Adding(w, a, n, t)];
    HistoryNext(ops, Adding(w, a, m, t), w, a);
    HistoryNext(ops + [Adding(w, a, m, t)], Adding(w, a, n, u), w, a);
    HistoryNext(ops, Adding(w, a, m + n, u), w, a);
  }

  /** An eviction keeps exactly the carts last touched at or after its cutoff, line for line; so none touched since
      the clock was read is lost, and evicting again at the same clock removes nothing. */
  lemma EvictionIsExact(ops: seq<Op>, readAt: int, ttl: int, w: string)
    requires ttl > 0
    ensures var s, after := Run(ops), Run(ops + [Evicting(readAt - ttl)]);
      && (w in after.carts <==> w in s.carts && LastTouch(ops, w) >= readAt - ttl)
      && (w in after.carts ==> after.carts[w] == s.carts[w])
      && (w in s.carts && LastTouch(ops, w) >= readAt ==> w in after.carts)
      && Older(after.carts, readAt - ttl) == {}
      && Evicted(after, readAt - ttl) == after
  {
    var op := Evicting(readAt - ttl);
    assert (ops + [op])[..|ops|] == ops;
    CartsTellHistory(ops);
  }
}
