/** The interleaved Redis backend refines the atomic shop, whatever the other calls do. */
module Linearize {
  import opened Model
  import opened Stock
  import opened Redis
  import opened SortedSet
  import opened Payment
  import Spec

  // ---------- what one event can change ----------

  function Caller(e: Event): Option<nat> {
    if e.Mine? || e.NewBlock? then None else Some(e.c)
  }

  lemma ProceedSteps(cfg: Config, s: State, c: nat)
    ensures Apply(cfg, s, Proceed(c)) == if c in s.calls then Step(cfg, s, c, s.calls[c]) else Stay(s)
  {
    hide Step;
  }

  lemma ExecSteps(cfg: Config, s: State, c: nat, id: Id, created: int, now: int)
    ensures Apply(cfg, s, Exec(c, id, created, now)) ==
      if CanExec(s, c, id) then EndAttempt(cfg, s, c, s.calls[c], id, created, now) else Stay(s)
  {
    hide CanExec, EndAttempt;
  }

  function LastEntry(s: State): Entry
    requires s.log != []
  {
    s.log[|s.log| - 1]
  }

  predicate EditsCatalogue(e: Event) {
    e.AddArticle? || e.BeginDelete? || e.SaveEdit?
  }

  /** Outside their own steps, settlement calls only begin. */
  predicate Begun(s: State, e: Event, c: nat, to: Call) {
    if c in s.calls then to == s.calls[c]
    else
      || (to.VerifyGet? && to.text != "" && e == BeginVerify(c, to.id, to.text))
      || (to.CancelGet? && e == BeginCancel(c, to.id, to.wallet))
      || (to.UpdateGet? && e == BeginUpdate(c, to.id, to.status, to.hash))
  }

  /** Only the last two commands of a checkout or a settlement touch orders, their indexes or reservations. */
  ghost predicate QuietStore(cfg: Config, s: State, e: Event, r: State) {
    && r.store.orders == s.store.orders && r.store.orderIndex == s.store.orderIndex
    && r.store.pending == s.store.pending && r.store.txOwner == s.store.txOwner
    && r.store.articleIndex ==
         if e.AddArticle? && e.c !in s.calls && FreshArticle(s, e.id)
         then s.store.articleIndex[e.id := cfg.score(e.value.created)] else s.store.articleIndex
  }

  predicate QuietRest(s: State, e: Event, r: State)
    requires r.log != []
  {
    && (|| r.chain == s.chain
        || (e.Mine? && r.chain == s.chain[e.key := e.tx] && (e.key in s.chain ==> s.chain[e.key].pending)))
    && s.latest <= r.latest
    && (Caller(e).Some? && e.c in r.calls && InSettlement(r.calls[e.c]) ==> Begun(s, e, e.c, r.calls[e.c]))
    && (LastEntry(r).caller == None || LastEntry(r).caller == Caller(e))
    && !LastEntry(r).placed && (!EditsCatalogue(e) ==> LastEntry(r).keys == {})
  }

  predicate EndsAttempt(call: Call) {
    call.Placed? || call.Refused? || call.Retrying? || call.Contended?
  }

  /** The end of an attempt moves its own call, and writes only when it places the order. */
  predicate ExecEffect(s: State, c: nat, id: Id, created: int, r: State)
    requires c in s.calls && s.calls[c].Reading? && r.log != []
  {
    var cart := s.calls[c].cart;
    && c in r.calls && EndsAttempt(r.calls[c]) && r.calls[c].cart == cart
    && r.store.articleIndex == s.store.articleIndex && r.store.txOwner == s.store.txOwner
    && r.chain == s.chain && r.latest == s.latest
    && LastEntry(r).caller == Some(c) && (LastEntry(r).placed <==> r.calls[c].Placed?)
    && (LastEntry(r).keys != {} ==> r.calls[c].Placed?)
    && if r.calls[c].Placed?
       then r.store.orders == s.store.orders[id := Spec.NewOrder(cart.wallet, cart.lines, created)]
       else r.store == s.store
  }

  /** What an event does to the whole state, article documents aside. */
  lemma EventEffect(cfg: Config, s: State, e: Event)
    ensures var r := Apply(cfg, s, e);
      match e
      case Proceed(c) => r == if c in s.calls then Step(cfg, s, c, s.calls[c]) else Stay(s)
      case Exec(c, id, created, _) => if CanExec(s, c, id) then ExecEffect(s, c, id, created, r) else r == Stay(s)
      case _ => QuietStore(cfg, s, e, r) && QuietRest(s, e, r)
  {
    hide Apply, Step, EndAttempt, QuietStore, QuietRest, ExecEffect;
    if e.Proceed? {
      ProceedSteps(cfg, s, e.c);
    } else if e.Exec? {
      ExecSteps(cfg, s, e.c, e.id, e.created, e.now);
      if CanExec(s, e.c, e.id) { AttemptEffect(cfg, s, e.c, e.id, e.created, e.now); }
    } else {
      QuietEvent(cfg, s, e);
    }
  }

  lemma AttemptEffect(cfg: Config, s: State, c: nat, id: Id, created: int, now: int)
    requires c in s.calls && s.calls[c].Reading?
    ensures var r := EndAttempt(cfg, s, c, s.calls[c], id, created, now);
      ExecEffect(s, c, id, created, r) && r.calls == s.calls[c := r.calls[c]]
  {
    hide Take, Clean;
  }

  lemma QuietEvent(cfg: Config, s: State, e: Event)
    requires !e.Proceed? && !e.Exec?
    ensures QuietStore(cfg, s, e, Apply(cfg, s, e)) && QuietRest(s, e, Apply(cfg, s, e))
  {
    hide Begin, Continue, FreshArticle, QuietStore, QuietRest;
    if !Begins(e) {
      ContinueStore(cfg, s, e);
      ContinueRest(cfg, s, e);
    } else if e.c in s.calls {
      StayQuiet(cfg, s, e);
    } else {
      BeginStore(cfg, s, e);
      BeginRest(cfg, s, e);
    }
  }

  lemma BeginStore(cfg: Config, s: State, e: Event)
    requires Begins(e) && e.c !in s.calls
    ensures QuietStore(cfg, s, e, Begin(cfg, s, e))
  {
    hide RevRange, FreshArticle;
  }

  lemma BeginRest(cfg: Config, s: State, e: Event)
    requires Begins(e) && e.c !in s.calls
    ensures QuietRest(s, e, Begin(cfg, s, e))
  {
    hide RevRange, FreshArticle;
  }

  lemma ContinueStore(cfg: Config, s: State, e: Event)
    requires !Begins(e) && !e.Proceed? && !e.Exec?
    ensures QuietStore(cfg, s, e, Continue(cfg, s, e))
  {
    hide Edited, KeySet, EndAttempt, Step, FreshArticle;
  }

  lemma ContinueRest(cfg: Config, s: State, e: Event)
    requires !Begins(e) && !e.Proceed? && !e.Exec?
    ensures QuietRest(s, e, Continue(cfg, s, e))
  {
    hide Edited, KeySet, EndAttempt, Step;
  }

  lemma StayQuiet(cfg: Config, s: State, e: Event)
    requires Begins(e) && e.c in s.calls
    ensures QuietStore(cfg, s, e, Stay(s)) && QuietRest(s, e, Stay(s))
  {
    hide FreshArticle;
  }

  /** An event moves only its own call, and no call disappears. */
  lemma OthersStay(cfg: Config, s: State, e: Event)
    ensures forall c: nat | Caller(e) != Some(c) :: Lookup(Apply(cfg, s, e).calls, c) == Lookup(s.calls, c)
    ensures s.calls.Keys <= Apply(cfg, s, e).calls.Keys
  {
    hide Apply, Step, EndAttempt, ExecEffect;
    if e.Proceed? {
      ProceedSteps(cfg, s, e.c);
      if e.c in s.calls { StepMovesCaller(cfg, s, e.c, s.calls[e.c]); }
    } else if e.Exec? {
      ExecSteps(cfg, s, e.c, e.id, e.created, e.now);
      if CanExec(s, e.c, e.id) { AttemptEffect(cfg, s, e.c, e.id, e.created, e.now); }
    } else {
      QuietCalls(cfg, s, e);
    }
  }

  lemma QuietCalls(cfg: Config, s: State, e: Event)
    requires !e.Proceed? && !e.Exec?
    ensures forall c: nat | Caller(e) != Some(c) :: Lookup(Apply(cfg, s, e).calls, c) == Lookup(s.calls, c)
    ensures s.calls.Keys <= Apply(cfg, s, e).calls.Keys
  {
    hide RevRange, Edited, FreshArticle, EndAttempt, Step;
  }

  lemma StepMovesCaller(cfg: Config, s: State, c: nat, call: Call)
    ensures forall d: nat | d != c :: Lookup(Step(cfg, s, c, call).calls, d) == Lookup(s.calls, d)
    ensures s.calls.Keys <= Step(cfg, s, c, call).calls.Keys
  {
    hide VerifyPayment;
  }

  /** Every change of an article document is in the log: nothing escapes WATCH. */
  lemma WritesAreLogged(cfg: Config, s: State, e: Event, a: Id)
    requires a !in LastEntry(Apply(cfg, s, e)).keys
    ensures Lookup(Apply(cfg, s, e).store.articles, a) == Lookup(s.store.articles, a)
  {
    hide Step;
    match e
    case Proceed(c) => if c in s.calls { StepKeepsArticles(cfg, s, c, s.calls[c]); }
    case _ =>
  }

  lemma StepKeepsArticles(cfg: Config, s: State, c: nat, call: Call)
    ensures Step(cfg, s, c, call).store.articles == s.store.articles
  {
  }

  // ---------- the reads of a checkout are still true until something is logged ----------

  predicate Unwritten(log: seq<Entry>, mark: nat, a: Id) {
    forall i | mark <= i < |log| :: a !in log[i].keys
  }

  predicate FreshCall(s: State, call: Call) {
    call.Reading? ==>
      && call.mark <= |s.log|
      && call.attempt < CREATE_MAX_RETRIES
      && call.seen.Keys <= KeySet(call.cart.lines)
      && forall a | a in call.seen && Unwritten(s.log, call.mark, a) :: call.seen[a] == Lookup(s.store.articles, a)
  }

  ghost predicate FreshReads(s: State) {
    forall c | c in s.calls :: FreshCall(s, s.calls[c])
  }

  lemma FreshCallSurvives(cfg: Config, s: State, e: Event, call: Call)
    requires FreshCall(s, call)
    ensures FreshCall(Apply(cfg, s, e), call)
  {
    hide Apply;
    var r := Apply(cfg, s, e);
    if call.Reading? {
      forall a | a in call.seen && Unwritten(r.log, call.mark, a)
        ensures call.seen[a] == Lookup(r.store.articles, a)
      {
        assert r.log[|s.log|] == LastEntry(r);
        forall i | call.mark <= i < |s.log| ensures a !in s.log[i].keys { assert r.log[i] == s.log[i]; }
        WritesAreLogged(cfg, s, e, a);
      }
    }
  }

  predicate AttemptsBounded(s: State) {
    forall c | c in s.calls && s.calls[c].Retrying? :: s.calls[c].attempt < CREATE_MAX_RETRIES
  }

  /** How a call comes to be reading, or about to. */
  lemma AttemptMoves(cfg: Config, s: State, e: Event, c: nat)
    requires Caller(e) == Some(c) && c in Apply(cfg, s, e).calls
    ensures var to := Apply(cfg, s, e).calls[c];
      && (to.Reading? ==>
            && c in s.calls
            && (|| to == s.calls[c]
                || (s.calls[c].Retrying? && to.mark == |s.log| && to.seen == map[] && to.attempt == s.calls[c].attempt)
                || (s.calls[c].Reading? && e.Read? && e.article in KeySet(to.cart.lines) &&
                  e.article !in s.calls[c].seen &&
                    to == s.calls[c].(seen := s.calls[c].seen[e.article := Lookup(s.store.articles, e.article)]) &&
                    Apply(cfg, s, e).store == s.store)))
      && (to.Retrying? ==> to.attempt < CREATE_MAX_RETRIES || (c in s.calls && to == s.calls[c]))
  {
    hide Step;
    match e
    case Exec(_, _, _, _) =>
    case Proceed(_) => if c in s.calls { StepLeavesCheckout(cfg, s, c, s.calls[c]); }
    case _ =>
  }

  lemma StepLeavesCheckout(cfg: Config, s: State, c: nat, call: Call)
    ensures var r := Step(cfg, s, c, call);
      (c in r.calls && (r.calls[c].Reading? || r.calls[c].Retrying?)) ==> r == Stay(s)
  {
  }

  lemma FreshStep(cfg: Config, s: State, e: Event)
    requires FreshReads(s) && AttemptsBounded(s)
    ensures FreshReads(Apply(cfg, s, e)) && AttemptsBounded(Apply(cfg, s, e))
  {
    hide Apply;
    var r := Apply(cfg, s, e);
    OthersStay(cfg, s, e);
    forall c | c in r.calls
      ensures FreshCall(r, r.calls[c]) && (r.calls[c].Retrying? ==> r.calls[c].attempt < CREATE_MAX_RETRIES)
    {
      if c in s.calls { FreshCallSurvives(cfg, s, e, s.calls[c]); }
      if Caller(e) != Some(c) { assert Lookup(r.calls, c) == Lookup(s.calls, c); } else { AttemptMoves(cfg, s, e, c); }
    }
  }

  // ---------- a stale settlement document differs at most in status and hash ----------

  predicate SameCore(o: Order, p: Order) {
    o.wallet == p.wallet && o.total == p.total && o.items == p.items && o.created == p.created
  }

  predicate HoldsDocument(call: Call) {
    call.Reserving? || call.CheckingOwner? || call.Writing?
  }

  ghost predicate Snapshots(s: State) {
    forall c | c in s.calls && HoldsDocument(s.calls[c]) ::
      s.calls[c].id in s.store.orders && SameCore(s.calls[c].doc, s.store.orders[s.calls[c].id])
  }

  /** The orders after an event: one new order, one settled document, or no change. */
  lemma OrdersEffect(cfg: Config, s: State, e: Event)
    ensures var orders := Apply(cfg, s, e).store.orders;
      || orders == s.store.orders
      || (e.Exec? && CanExec(s, e.c, e.id) &&
        orders == s.store.orders[e.id := Spec.NewOrder(s.calls[e.c].cart.wallet, s.calls[e.c].cart.lines, e.created)])
      || (e.Proceed? && e.c in s.calls && s.calls[e.c].Writing? &&
          orders == s.store.orders[s.calls[e.c].id := Settled(s.calls[e.c])])
  {
    hide Apply, Step;
    EventEffect(cfg, s, e);
    if e.Proceed? && e.c in s.calls { StepOrders(cfg, s, e.c, s.calls[e.c]); }
  }

  function Settled(call: Call): Order
    requires call.Writing?
  {
    call.doc.(status := call.status, txHash := call.hash)
  }

  lemma StepOrders(cfg: Config, s: State, c: nat, call: Call)
    ensures Step(cfg, s, c, call).store.orders ==
      if call.Writing? then s.store.orders[call.id := Settled(call)] else s.store.orders
  {
  }

  /** No event changes the items, wallet, total or creation time of a stored order, or removes it. */
  lemma OrdersKeepCore(cfg: Config, s: State, e: Event, id: Id)
    requires Snapshots(s) && id in s.store.orders
    ensures id in Apply(cfg, s, e).store.orders
    ensures SameCore(Apply(cfg, s, e).store.orders[id], s.store.orders[id])
  {
    hide Apply;
    OrdersEffect(cfg, s, e);
  }

  /** A settling call holds the document it held before, or the stored one. */
  lemma DocumentMoves(cfg: Config, s: State, e: Event, c: nat)
    requires Caller(e) == Some(c) && c in Apply(cfg, s, e).calls && HoldsDocument(Apply(cfg, s, e).calls[c])
    ensures var to := Apply(cfg, s, e).calls[c];
      && c in s.calls
      && (|| (HoldsDocument(s.calls[c]) && to.id == s.calls[c].id && to.doc == s.calls[c].doc)
          || (to.id in s.store.orders && to.doc == s.store.orders[to.id] && Apply(cfg, s, e).store == s.store))
  {
    hide Apply, Step;
    EventEffect(cfg, s, e);
    if e.Proceed? && e.c in s.calls { StepDocument(cfg, s, c, s.calls[c]); }
  }

  lemma StepDocument(cfg: Config, s: State, c: nat, call: Call)
    requires c in s.calls && s.calls[c] == call
    requires HoldsDocument(Step(cfg, s, c, call).calls[c])
    ensures var to := Step(cfg, s, c, call).calls[c];
      || (HoldsDocument(call) && to.id == call.id && to.doc == call.doc)
      || (to.id in s.store.orders && to.doc == s.store.orders[to.id] && Step(cfg, s, c, call).store == s.store)
  {
  }

  lemma SnapshotsStep(cfg: Config, s: State, e: Event)
    requires Snapshots(s)
    ensures Snapshots(Apply(cfg, s, e))
  {
    hide Apply;
    var r := Apply(cfg, s, e);
    OthersStay(cfg, s, e);
    forall c | c in r.calls && HoldsDocument(r.calls[c])
      ensures r.calls[c].id in r.store.orders && SameCore(r.calls[c].doc, r.store.orders[r.calls[c].id])
    {
      if Caller(e) != Some(c) { assert Lookup(r.calls, c) == Lookup(s.calls, c); } else { DocumentMoves(cfg, s, e, c); }
      OrdersKeepCore(cfg, s, e, r.calls[c].id);
    }
  }

  ghost predicate Inv(s: State) {
    FreshReads(s) && AttemptsBounded(s) && Snapshots(s)
  }

  lemma {:induction false} RunInv(cfg: Config, events: seq<Event>)
    ensures Inv(Run(cfg, events))
  {
    hide Apply;
    if events == [] {
    } else {
      var n := |events| - 1;
      RunInv(cfg, events[..n]);
      FreshStep(cfg, Run(cfg, events[..n]), events[n]);
      SnapshotsStep(cfg, Run(cfg, events[..n]), events[n]);
    }
  }

  // ---------- refinement ----------

  function View(store: Store): Spec.Shop {
    Spec.Shop(store.articles, store.orders)
  }

  /** The atomic operation an event performs. A checkout takes effect at its EXEC, from its cart alone. */
  ghost function OpOf(s: State, e: Event): Spec.Op {
    match e
    case Exec(c, id, created, now) =>
      if CanExec(s, c, id) && Clean(s.log, s.calls[c].mark, KeySet(s.calls[c].cart.lines))
      then Spec.Place(s.calls[c].cart.wallet, s.calls[c].cart.lines, id, created, now) else Spec.Skip
    case Proceed(c) =>
      if c in s.calls && s.calls[c].Writing? then Spec.Settle(s.calls[c].id, s.calls[c].status, s.calls[c].hash)
      else Spec.Skip
    case AddArticle(c, id, value) =>
      if c in s.calls || !FreshArticle(s, id) then Spec.Skip
      else Spec.PutArticle(id, value)
    case BeginDelete(c, id) =>
      if c in s.calls || id !in s.store.articles then Spec.Skip else Spec.DropArticle(id)
    case SaveEdit(c, name, quantity, price, now) =>
      if c in s.calls && s.calls[c].Editing?
      then Spec.PutArticle(s.calls[c].article, Edited(s.calls[c].loaded, name, quantity, price, now)) else Spec.Skip
    case _ => Spec.Skip
  }

  /** The decrement loop looks only at the articles the lines name. */
  lemma {:induction false} TakeIsLocal(p: map<Id, Article>, q: map<Id, Article>, lines: seq<Line>, now: int)
    requires forall a | a in KeySet(lines) :: Lookup(p, a) == Lookup(q, a)
    ensures Take(p, lines, now).Short? ==> Take(q, lines, now) == Take(p, lines, now)
    ensures Take(p, lines, now).Filled? ==> Take(q, lines, now).Filled?
  {
    if lines == [] {
    } else {
      var l := lines[0];
      assert lines == [l] + lines[1..];
      assert KeySet(lines) == {l.article} + KeySet(lines[1..]);
      if l.article in p && p[l.article].quantity >= l.quantity {
        var x := Sell(p[l.article], l.quantity, now);
        forall a | a in KeySet(lines[1..]) ensures Lookup(p[l.article := x], a) == Lookup(q[l.article := x], a) {
          assert a in KeySet(lines);
        }
        TakeIsLocal(p[l.article := x], q[l.article := x], lines[1..], now);
      }
    }
  }

  /** Overwriting the documents read with the computed ones is the atomic decrement of the whole catalogue. */
  lemma WriteBackIsAtomic(p: map<Id, Article>, q: map<Id, Article>, lines: seq<Line>, now: int)
    requires forall a | a in KeySet(lines) :: Lookup(p, a) == Lookup(q, a)
    requires p.Keys <= KeySet(lines) && Take(p, lines, now).Filled?
    ensures Take(q, lines, now) == Filled(q + Take(p, lines, now).articles)
    ensures Take(p, lines, now).articles.Keys == KeySet(lines)
  {
    TakeIsLocal(p, q, lines, now);
    FilledStock(p, lines, now);
    FilledStock(q, lines, now);
    var left, written := Take(q, lines, now).articles, Take(p, lines, now).articles;
    forall a | a in KeySet(lines) ensures Lookup(p, a) == Lookup(q, a) && left[a] == written[a] {}
    assert left == q + written;
  }

  lemma ReadsAreCurrent(s: State, call: Call)
    requires FreshCall(s, call) && call.Reading? && call.seen.Keys == KeySet(call.cart.lines)
    requires Clean(s.log, call.mark, KeySet(call.cart.lines))
    ensures Loaded(call.seen).Keys <= KeySet(call.cart.lines)
    ensures forall a | a in KeySet(call.cart.lines) :: Lookup(Loaded(call.seen), a) == Lookup(s.store.articles, a)
  {
    forall a | a in KeySet(call.cart.lines)
      ensures Lookup(Loaded(call.seen), a) == Lookup(s.store.articles, a)
    {
      assert Unwritten(s.log, call.mark, a);
    }
  }

  lemma ExecRefines(cfg: Config, s: State, e: Event)
    requires FreshReads(s) && e.Exec?
    ensures View(Apply(cfg, s, e).store) == Spec.Perform(View(s.store), OpOf(s, e))
  {
    if CanExec(s, e.c, e.id) {
      var call := s.calls[e.c];
      var loaded := Loaded(call.seen);
      if Clean(s.log, call.mark, KeySet(call.cart.lines)) {
        ReadsAreCurrent(s, call);
        if Take(loaded, call.cart.lines, e.now).Filled? {
          WriteBackIsAtomic(loaded, s.store.articles, call.cart.lines, e.now);
        } else {
          TakeIsLocal(loaded, s.store.articles, call.cart.lines, e.now);
        }
      }
    }
  }

  lemma EventRefines(cfg: Config, s: State, e: Event)
    requires Inv(s)
    ensures View(Apply(cfg, s, e).store) == Spec.Perform(View(s.store), OpOf(s, e))
  {
    hide Apply, Step;
    match e
    case Exec(_, _, _, _) => ExecRefines(cfg, s, e);
    case Proceed(c) =>
      ProceedSteps(cfg, s, c);
      if c in s.calls { StepKeepsArticles(cfg, s, c, s.calls[c]); StepOrders(cfg, s, c, s.calls[c]); }
    case _ => QuietRefines(cfg, s, e);
  }

  lemma QuietRefines(cfg: Config, s: State, e: Event)
    requires !e.Proceed? && !e.Exec?
    ensures View(Apply(cfg, s, e).store) == Spec.Perform(View(s.store), OpOf(s, e))
  {
    hide RevRange, Edited, FreshArticle, EndAttempt, Step;
  }

  ghost function OpsOf(cfg: Config, events: seq<Event>): seq<Spec.Op> {
    if events == [] then []
    else var n := |events| - 1; OpsOf(cfg, events[..n]) + [OpOf(Run(cfg, events[..n]), events[n])]
  }

  /** Linearizability: every interleaving, seen through articles and orders, is a run of atomic operations,
      one per event, in the order of the events. */
  lemma {:induction false} RedisRefinesAtomicShop(cfg: Config, events: seq<Event>)
    ensures View(Run(cfg, events).store) == Spec.PerformAll(View(Init().store), OpsOf(cfg, events))
  {
    hide Apply;
    if events == [] {
    } else {
      var n := |events| - 1;
      RedisRefinesAtomicShop(cfg, events[..n]);
      RunInv(cfg, events[..n]);
      EventRefines(cfg, Run(cfg, events[..n]), events[n]);
      var ops := OpsOf(cfg, events);
      assert ops[..|ops| - 1] == OpsOf(cfg, events[..n]);
    }
  }
}
