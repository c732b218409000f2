/** The secondary indexes of the orders, kept exact by every interleaving of checkouts and settlements. */
module Indexes {
  import opened Model
  import opened Stock
  import opened SortedSet
  import opened Redis
  import opened Linearize
  import opened Listing

  predicate PendingOf(orders: map<Id, Order>, w: string, id: Id) {
    id in orders && orders[id].wallet == w && orders[id].status == Pending
  }

  ghost predicate Exact(cfg: Config, store: Store) {
    && store.orderIndex.Keys == store.orders.Keys
    && (forall id | id in store.orders :: store.orderIndex[id] == cfg.score(store.orders[id].created))
    && (forall w: string, id: Id :: (w, id) in store.pending <==> PendingOf(store.orders, w, id))
    && (forall w: string, id: Id | (w, id) in store.pending ::
      store.pending[(w, id)] == cfg.score(store.orders[id].created))
  }

  /** A write-back keeps the indexes exact exactly when it does not re-open an order that was settled. */
  lemma WriteBackKeepsExact(cfg: Config, s: State, c: nat, call: Call)
    requires Exact(cfg, s.store) && Snapshots(s) && c in s.calls && s.calls[c] == call && call.Writing?
    ensures Exact(cfg, WriteBack(s, c, call).store) <==>
      call.status != Pending || s.store.orders[call.id].status == Pending
  {
    var before, after := s.store, WriteBack(s, c, call).store;
    var w := call.doc.wallet;
    assert forall id | id in before.orders && id != call.id :: after.orders[id] == before.orders[id];
    if call.status == Pending {
      assert PendingOf(after.orders, w, call.id);
    } else {
      assert forall p | p != (w, call.id) :: p in after.pending <==> p in before.pending;
    }
  }

  lemma CheckoutKeepsExact(cfg: Config, store: Store, written: map<Id, Article>, cart: Cart, id: Id, created: int)
    requires Exact(cfg, store) && id !in store.orders
    ensures Exact(cfg, PlaceOrder(cfg, store, written, cart, id, created))
  {
    var after := PlaceOrder(cfg, store, written, cart, id, created);
    assert forall k | k in store.orders :: after.orders[k] == store.orders[k];
  }

  lemma OtherEventsKeepOrders(cfg: Config, s: State, e: Event)
    requires !e.Exec? && !(e.Proceed? && e.c in s.calls && s.calls[e.c].Writing?)
    ensures var r := Apply(cfg, s, e).store;
      r.orders == s.store.orders && r.orderIndex == s.store.orderIndex && r.pending == s.store.pending
  {
    hide Apply, Step;
    EventEffect(cfg, s, e);
    if e.Proceed? && e.c in s.calls { StepKeepsOrders(cfg, s, e.c, s.calls[e.c]); }
  }

  lemma StepKeepsOrders(cfg: Config, s: State, c: nat, call: Call)
    requires !call.Writing?
    ensures var r := Step(cfg, s, c, call).store;
      r.orders == s.store.orders && r.orderIndex == s.store.orderIndex && r.pending == s.store.pending
  {
  }

  /** No caller asks UpdateStatus to make an order pending again. */
  predicate Settles(e: Event) {
    e.BeginUpdate? ==> e.status != Pending
  }

  predicate IsUpdate(call: Call) {
    call.UpdateGet? || call.Reserving? || call.CheckingOwner? || call.Writing?
  }

  ghost predicate SettlingOnly(s: State) {
    forall c | c in s.calls && IsUpdate(s.calls[c]) :: s.calls[c].status != Pending
  }

  /** An update under way keeps its target order and status; it starts from a handler or a direct request. */
  lemma UpdateMoves(cfg: Config, s: State, e: Event, c: nat)
    requires Caller(e) == Some(c) && c in Apply(cfg, s, e).calls && IsUpdate(Apply(cfg, s, e).calls[c])
    ensures var to := Apply(cfg, s, e).calls[c];
      || (e.BeginUpdate? && to.status == e.status)
      || (c in s.calls && IsUpdate(s.calls[c]) && to.id == s.calls[c].id && to.status == s.calls[c].status)
      || (c in s.calls && (s.calls[c].Verifying? || s.calls[c].CancelGet?) && to.status != Pending)
  {
    hide Apply, Step;
    EventEffect(cfg, s, e);
    if e.Proceed? && e.c in s.calls { StepUpdates(cfg, s, c, s.calls[c]); }
  }

  lemma StepUpdates(cfg: Config, s: State, c: nat, call: Call)
    requires c in s.calls && s.calls[c] == call && IsUpdate(Step(cfg, s, c, call).calls[c])
    ensures var to := Step(cfg, s, c, call).calls[c];
      || (IsUpdate(call) && to.id == call.id && to.status == call.status)
      || ((call.Verifying? || call.CancelGet?) && to.status != Pending)
  {
  }

  lemma SettlingStep(cfg: Config, s: State, e: Event)
    requires SettlingOnly(s) && Settles(e)
    ensures SettlingOnly(Apply(cfg, s, e))
  {
    hide Apply;
    var r := Apply(cfg, s, e);
    OthersStay(cfg, s, e);
    forall c | c in r.calls && IsUpdate(r.calls[c]) ensures r.calls[c].status != Pending {
      if Caller(e) == Some(c) { UpdateMoves(cfg, s, e, c); } else { assert Lookup(r.calls, c) == Lookup(s.calls, c); }
    }
  }

  lemma ExactExec(cfg: Config, s: State, c: nat, id: Id, created: int, now: int)
    requires Exact(cfg, s.store) && CanExec(s, c, id)
    ensures Exact(cfg, EndAttempt(cfg, s, c, s.calls[c], id, created, now).store)
  {
    hide Exact, PlaceOrder;
    var call := s.calls[c];
    match Take(Loaded(call.seen), call.cart.lines, now)
    case Short(_) =>
    case Filled(written) =>
      assert id !in s.store.orders;
      CheckoutKeepsExact(cfg, s.store, written, call.cart, id, created);
  }

  lemma ExactStep(cfg: Config, s: State, e: Event)
    requires Exact(cfg, s.store) && Snapshots(s) && SettlingOnly(s)
    ensures Exact(cfg, Apply(cfg, s, e).store)
  {
    hide Apply, EndAttempt;
    if e.Exec? {
      ExecSteps(cfg, s, e.c, e.id, e.created, e.now);
      if CanExec(s, e.c, e.id) { ExactExec(cfg, s, e.c, e.id, e.created, e.now); }
    } else if e.Proceed? && e.c in s.calls && s.calls[e.c].Writing? {
      ProceedSteps(cfg, s, e.c);
      WriteBackKeepsExact(cfg, s, e.c, s.calls[e.c]);
    } else {
      OtherEventsKeepOrders(cfg, s, e);
    }
  }

  /** In every state of every interleaving with settlements to paid or failed, orders:index lists exactly the
      stored orders and orders:pending:<w> exactly the pending orders of w, each with its score. */
  lemma {:induction false} IndexesStayExact(cfg: Config, events: seq<Event>)
    requires forall e | e in events :: Settles(e)
    ensures Exact(cfg, Run(cfg, events).store) && SettlingOnly(Run(cfg, events))
  {
    hide Apply;
    if events == [] {
    } else {
      var n := |events| - 1;
      assert forall e | e in events[..n] :: e in events;
      assert events[n] in events;
      IndexesStayExact(cfg, events[..n]);
      RunInv(cfg, events[..n]);
      ExactStep(cfg, Run(cfg, events[..n]), events[n]);
      SettlingStep(cfg, Run(cfg, events[..n]), events[n]);
    }
  }

  // ---------- FindPendingByWallet ----------

  ghost function PendingSet(store: Store, w: string): (z: ZSet)
    ensures forall id :: id in z <==> (w, id) in store.pending
    ensures forall id | id in z :: z[id] == store.pending[(w, id)]
  {
    map p | p in store.pending && p.0 == w :: p.1 := store.pending[p]
  }

  /** ZREVRANGE orders:pending:<w> 0 0. */
  ghost function FindPending(store: Store, w: string): Option<Id> {
    var z := PendingSet(store, w);
    if z == map[] then None else Some(Head(z))
  }

  /** ORDER BY created_at DESC LIMIT 1 over the pending rows of the wallet may return this order. */
  ghost predicate IsNewestPending(orders: map<Id, Order>, w: string, id: Id) {
    && PendingOf(orders, w, id)
    && forall k | PendingOf(orders, w, k) :: orders[k].created <= orders[id].created
  }

  ghost predicate Monotone(score: int -> int) {
    forall t, u | t <= u :: score(t) <= score(u)
  }

  /** The index answers the filter-and-sort query: it finds an order exactly when the wallet has a pending one,
      and that order is a newest one exactly when no newer pending order was rounded to the same score. */
  lemma PendingHeadAnswersQuery(cfg: Config, events: seq<Event>, w: string)
    requires Monotone(cfg.score) && forall e | e in events :: Settles(e)
    ensures var store := Run(cfg, events).store; var found := FindPending(store, w);
      && (found.None? <==> forall id :: !PendingOf(store.orders, w, id))
      && (found.Some? ==>
            && PendingOf(store.orders, w, found.value)
            && (forall id | PendingOf(store.orders, w, id) ::
                  cfg.score(store.orders[id].created) <= cfg.score(store.orders[found.value].created))
            && (IsNewestPending(store.orders, w, found.value) <==>
                  forall id | PendingOf(store.orders, w, id)
                    && store.orders[id].created > store.orders[found.value].created ::
                    cfg.score(store.orders[id].created) != cfg.score(store.orders[found.value].created)))
  {
    hide Apply;
    var store := Run(cfg, events).store;
    IndexesStayExact(cfg, events);
    var z := PendingSet(store, w);
    if z == map[] {
      forall id ensures !PendingOf(store.orders, w, id) { assert id !in z; }
    } else {
      var h := Head(z);
      assert h in z;
      forall id | PendingOf(store.orders, w, id)
        ensures cfg.score(store.orders[id].created) <= cfg.score(store.orders[h].created)
      {
        assert id in z && Ahead(z, h, id);
      }
    }
  }

  /** FindPendingByWallet: ZREVRANGE at instant i, then GET of the order found at instant j. */
  ghost function FindThenGet(cfg: Config, events: seq<Event>, i: nat, j: nat, w: string): Option<Order>
    requires i <= j <= |events|
  {
    var found := FindPending(At(cfg, events, i).store, w);
    if found.None? then None else Lookup(At(cfg, events, j).store.orders, found.value)
  }

  predicate WritesBack(s: State, e: Event, id: Id) {
    e.Proceed? && e.c in s.calls && s.calls[e.c].Writing? && s.calls[e.c].id == id
  }

  ghost predicate Untouched(cfg: Config, events: seq<Event>, i: nat, j: nat, id: Id)
    requires i <= j <= |events|
  {
    forall k | i <= k < j :: !WritesBack(At(cfg, events, k), events[k], id)
  }

  lemma UntouchedNext(cfg: Config, events: seq<Event>, i: nat, j: nat, id: Id)
    requires i <= j <= |events|
    ensures Untouched(cfg, events, i, j, id) <==>
      i == j || (Untouched(cfg, events, i, j - 1, id) && !WritesBack(At(cfg, events, j - 1), events[j - 1], id))
  {
    hide At, WritesBack;
  }

  /** Between two instants an order stays as it was until a write-back settles it for good. */
  lemma {:induction false} OrderUntil(cfg: Config, events: seq<Event>, i: nat, j: nat, id: Id)
    requires i <= j <= |events| && id in At(cfg, events, i).store.orders && forall e | e in events :: Settles(e)
    ensures id in At(cfg, events, j).store.orders
    ensures var was, now := At(cfg, events, i).store.orders[id], At(cfg, events, j).store.orders[id];
      && SameCore(was, now)
      && if Untouched(cfg, events, i, j, id) then now == was else now.status != Pending
  {
    hide Apply, WritesBack, Untouched;
    UntouchedNext(cfg, events, i, j, id);
    if i == j {
    } else {
      OrderUntil(cfg, events, i, j - 1, id);
      AtNext(cfg, events, j - 1);
      RunInv(cfg, events[..j - 1]);
      assert forall e | e in events[..j - 1] :: e in events;
      IndexesStayExact(cfg, events[..j - 1]);
      WriteBackSettles(cfg, At(cfg, events, j - 1), events[j - 1], id);
    }
  }

  lemma WriteBackSettles(cfg: Config, s: State, e: Event, id: Id)
    requires Snapshots(s) && SettlingOnly(s) && id in s.store.orders
    ensures var orders := Apply(cfg, s, e).store.orders;
      && id in orders && SameCore(s.store.orders[id], orders[id])
      && if WritesBack(s, e, id) then orders[id].status != Pending else orders[id] == s.store.orders[id]
  {
    hide Apply;
    OrdersKeepCore(cfg, s, e, id);
    OrdersEffect(cfg, s, e);
    if WritesBack(s, e, id) {
      ProceedSteps(cfg, s, e.c);
      StepOrders(cfg, s, e.c, s.calls[e.c]);
    }
  }

  /** The two commands of FindPendingByWallet, interleaved with anything: it finds nothing exactly when the wallet had
      no pending order at the first one; otherwise it returns an order of the wallet that was pending then, with
      maximal score, as it was then -- or, exactly when a write-back came between, that order already settled. */
  lemma FindPendingByWallet(cfg: Config, events: seq<Event>, i: nat, j: nat, w: string)
    requires i <= j <= |events| && Monotone(cfg.score) && forall e | e in events :: Settles(e)
    ensures var before, got := At(cfg, events, i).store, FindThenGet(cfg, events, i, j, w);
      && (got.None? <==> forall id :: !PendingOf(before.orders, w, id))
      && (got.Some? ==> FindPending(before, w).Some? && var id := FindPending(before, w).value;
            && PendingOf(before.orders, w, id)
            && (forall k | PendingOf(before.orders, w, k) ::
              cfg.score(before.orders[k].created) <= cfg.score(before.orders[id].created))
            && SameCore(before.orders[id], got.value)
            && (got.value == before.orders[id] <==> Untouched(cfg, events, i, j, id))
            && (got.value.status == Pending <==> got.value == before.orders[id]))
  {
    hide Apply, Untouched;
    assert forall e | e in events[..i] :: e in events;
    PendingHeadAnswersQuery(cfg, events[..i], w);
    var found := FindPending(At(cfg, events, i).store, w);
    if found.Some? { OrderUntil(cfg, events, i, j, found.value); }
  }

  // ---------- the orders listing ----------

  /** Page after page, the orders listing shows every stored order exactly once, newest first up to the rounding of
      scores, and every order it shows is stored. */
  lemma OrderPagesShowAll(cfg: Config, events: seq<Event>, limit: nat, k: nat)
    requires limit >= 1 && forall e | e in events :: Settles(e)
    requires k * limit >= |Run(cfg, events).store.orderIndex|
    ensures var store := Run(cfg, events).store; var shown := OrdersPages(RevRange(store.orderIndex), limit, k);
      && (forall id :: id in shown <==> id in store.orders)
      && forall i, j | 0 <= i < j < |shown| ::
           shown[i] != shown[j] &&
             cfg.score(store.orders[shown[i]].created) >= cfg.score(store.orders[shown[j]].created)
  {
    hide Apply, RevRange;
    var store := Run(cfg, events).store;
    IndexesStayExact(cfg, events);
    RevRangeSorted(store.orderIndex);
    var rows := RevRange(store.orderIndex);
    OrdersPagesCover(rows, limit, k);
    assert forall id :: id in store.orders <==> id in store.orderIndex.Keys;
  }
}
