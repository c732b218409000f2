/** Building runs: what a sequence of events leads to from a given state. */
module Runs {
  import opened Model
  import opened Stock
  import opened Redis
  import opened Settlement
  import opened Linearize

  ghost function After(cfg: Config, s: State, events: seq<Event>): State {
    if events == [] then s
    else var n := |events| - 1; Apply(cfg, After(cfg, s, events[..n]), events[n])
  }

  lemma AfterNext(cfg: Config, s: State, events: seq<Event>, e: Event)
    ensures After(cfg, s, events + [e]) == Apply(cfg, After(cfg, s, events), e)
  {
    hide Apply;
    assert (events + [e])[..|events|] == events;
  }

  lemma AfterOne(cfg: Config, s: State, e: Event)
    ensures After(cfg, s, [e]) == Apply(cfg, s, e)
  {
    hide Apply;
    assert [] + [e] == [e];
    AfterNext(cfg, s, [], e);
  }

  lemma {:induction false} AfterConcat(cfg: Config, s: State, p: seq<Event>, q: seq<Event>)
    ensures After(cfg, s, p + q) == After(cfg, After(cfg, s, p), q)
  {
    hide Apply;
    if q == [] {
      assert p + q == p;
    } else {
      var n := |q| - 1;
      assert q == q[..n] + [q[n]] && p + q == (p + q[..n]) + [q[n]];
      AfterConcat(cfg, s, p, q[..n]);
      AfterNext(cfg, s, p + q[..n], q[n]);
      AfterNext(cfg, After(cfg, s, p), q[..n], q[n]);
    }
  }

  /** Continuing a run from its last state continues the run. */
  lemma {:induction false} RunConcat(cfg: Config, p: seq<Event>, q: seq<Event>)
    ensures Run(cfg, p + q) == After(cfg, Run(cfg, p), q)
  {
    hide Apply;
    if q == [] {
      assert p + q == p;
    } else {
      var n := |q| - 1;
      assert q == q[..n] + [q[n]] && (p + q)[..|p| + n] == p + q[..n];
      RunConcat(cfg, p, q[..n]);
      AfterNext(cfg, Run(cfg, p), q[..n], q[n]);
    }
  }

  lemma AfterCons(cfg: Config, s: State, e: Event, events: seq<Event>)
    ensures After(cfg, s, [e] + events) == After(cfg, Apply(cfg, s, e), events)
  {
    hide Apply;
    AfterOne(cfg, s, e);
    AfterConcat(cfg, s, [e], events);
  }

  // ---------- one call running alone ----------

  function Proceeds(c: nat, n: nat): seq<Event> {
    seq(n, _ => Proceed(c))
  }

  lemma FirstProceed(cfg: Config, s: State, c: nat, n: nat)
    requires n > 0
    ensures After(cfg, s, Proceeds(c, n)) == After(cfg, Apply(cfg, s, Proceed(c)), Proceeds(c, n - 1))
  {
    hide Apply;
    assert Proceeds(c, n) == [Proceed(c)] + Proceeds(c, n - 1);
    AfterCons(cfg, s, Proceed(c), Proceeds(c, n - 1));
  }

  /** Nothing has happened but the passing of events. */
  predicate Same(s: State, r: State) {
    r.store == s.store && r.calls == s.calls && r.chain == s.chain && r.latest == s.latest
  }

  lemma {:induction false} FinishedIsIdle(cfg: Config, s: State, c: nat, n: nat)
    requires c in s.calls && s.calls[c].Finished?
    ensures Same(s, After(cfg, s, Proceeds(c, n)))
    decreases n
  {
    if n == 0 {
    } else {
      FirstProceed(cfg, s, c, n);
      assert Apply(cfg, s, Proceed(c)) == Stay(s);
      FinishedIsIdle(cfg, Stay(s), c, n - 1);
    }
  }

  /** The hash is not reserved for another order. */
  predicate Free(store: Store, hash: Option<string>, id: Id) {
    HasText(hash) && hash.value in store.txOwner ==> store.txOwner[hash.value] == id
  }

  /** The update of one order went through, and nothing else happened to orders, reservations, calls or chain. */
  predicate Recorded(s: State, r: State, c: nat, id: Id, doc: Order, status: Status, hash: Option<string>) {
    && r.store.articles == s.store.articles && r.store.articleIndex == s.store.articleIndex
    && r.store.orders == s.store.orders[id := doc.(status := status, txHash := hash)]
    && r.store.txOwner == (if HasText(hash) then s.store.txOwner[hash.value := id] else s.store.txOwner)
    && r.calls == s.calls[c := Finished(Done)]
    && r.chain == s.chain && r.latest == s.latest
  }

  lemma FromWriting(cfg: Config, s: State, c: nat, n: nat)
    requires n >= 1 && c in s.calls && s.calls[c].Writing? && Owned(s.store, s.calls[c].hash, s.calls[c].id)
    ensures var call := s.calls[c];
      Recorded(s, After(cfg, s, Proceeds(c, n)), c, call.id, call.doc, call.status, call.hash)
  {
    FirstProceed(cfg, s, c, n);
    var r := WriteBack(s, c, s.calls[c]);
    assert Apply(cfg, s, Proceed(c)) == r;
    FinishedIsIdle(cfg, r, c, n - 1);
  }

  lemma FromChecking(cfg: Config, s: State, c: nat, n: nat)
    requires n >= 2 && c in s.calls && s.calls[c].CheckingOwner? && s.calls[c].text != ""
    requires Lookup(s.store.txOwner, s.calls[c].text) == Some(s.calls[c].id)
    ensures var call := s.calls[c];
      Recorded(s, After(cfg, s, Proceeds(c, n)), c, call.id, call.doc, call.status, Some(call.text))
  {
    FirstProceed(cfg, s, c, n);
    var call := s.calls[c];
    var r := Move(s, c, Writing(call.id, call.status, Some(call.text), call.doc));
    assert Apply(cfg, s, Proceed(c)) == r;
    FromWriting(cfg, r, c, n - 1);
  }

  lemma FromReserving(cfg: Config, s: State, c: nat, n: nat)
    requires n >= 3 && c in s.calls && s.calls[c].Reserving? && s.calls[c].text != "" &&
      Free(s.store, Some(s.calls[c].text), s.calls[c].id)
    ensures var call := s.calls[c];
      Recorded(s, After(cfg, s, Proceeds(c, n)), c, call.id, call.doc, call.status, Some(call.text))
  {
    FirstProceed(cfg, s, c, n);
    var call := s.calls[c];
    var r := Reserve(s, c, call);
    assert Apply(cfg, s, Proceed(c)) == r;
    if call.text in s.store.txOwner { FromChecking(cfg, r, c, n - 1); } else { FromWriting(cfg, r, c, n - 1); }
  }

  lemma FromUpdate(cfg: Config, s: State, c: nat, n: nat)
    requires n >= 4 && c in s.calls && s.calls[c].UpdateGet? && s.calls[c].id in s.store.orders
    requires Free(s.store, s.calls[c].hash, s.calls[c].id)
    ensures var call := s.calls[c];
      Recorded(s, After(cfg, s, Proceeds(c, n)), c, call.id, s.store.orders[call.id], call.status, call.hash)
  {
    FirstProceed(cfg, s, c, n);
    var call := s.calls[c];
    var r := GetForUpdate(s, c, call.id, call.status, call.hash);
    assert Apply(cfg, s, Proceed(c)) == r;
    if HasText(call.hash) { FromReserving(cfg, r, c, n - 1); } else { FromWriting(cfg, r, c, n - 1); }
  }

  lemma FromVerifying(cfg: Config, s: State, c: nat, n: nat)
    requires n >= 5 && c in s.calls && s.calls[c].Verifying? && s.calls[c].id in s.store.orders
    requires AcceptsTotal(cfg, s, s.calls[c].text, s.calls[c].total) &&
      Free(s.store, Some(s.calls[c].text), s.calls[c].id)
    ensures var call := s.calls[c];
      Recorded(s, After(cfg, s, Proceeds(c, n)), c, call.id, s.store.orders[call.id], Paid, Some(call.text))
  {
    hide AcceptsTotal, Apply, Step, After;
    FirstProceed(cfg, s, c, n);
    var call := s.calls[c];
    var r := Move(s, c, UpdateGet(call.id, Paid, Some(call.text)));
    CheckPays(cfg, s, c, call);
    ProceedSteps(cfg, s, c);
    FromUpdate(cfg, r, c, n - 1);
  }

  // ---------- whole requests ----------

  /** A verification of the order with this text would go through. */
  predicate Payable(cfg: Config, s: State, id: Id, text: string) {
    && text != "" && Accepts(cfg, s, id, text) && s.store.orders[id].status == Pending
    && Free(s.store, Some(text), id)
  }

  /** A verification passes its status check. */
  function Check(c: nat, id: Id, text: string): seq<Event> {
    [BeginVerify(c, id, text)] + [Proceed(c)]
  }

  lemma CheckPasses(cfg: Config, s: State, c: nat, id: Id, text: string)
    requires id in s.store.orders && s.store.orders[id].status == Pending && text != "" && c !in s.calls
    ensures Same(After(cfg, s, Check(c, id, text)),
      s.(calls := s.calls[c := Verifying(id, text, s.store.orders[id].total)]))
  {
    hide After;
    AfterCons(cfg, s, BeginVerify(c, id, text), [Proceed(c)]);
    var s1 := Move(s, c, VerifyGet(id, text));
    assert Apply(cfg, s, BeginVerify(c, id, text)) == s1;
    AfterOne(cfg, s1, Proceed(c));
  }

  /** A whole verification. */
  function Pay(c: nat, id: Id, text: string): seq<Event> {
    Check(c, id, text) + Proceeds(c, 5)
  }

  lemma PaymentGoesThrough(cfg: Config, s: State, c: nat, id: Id, text: string)
    requires Payable(cfg, s, id, text) && c !in s.calls
    ensures Recorded(s, After(cfg, s, Pay(c, id, text)), c, id, s.store.orders[id], Paid, Some(text))
  {
    hide After, Apply;
    CheckPasses(cfg, s, c, id, text);
    AfterConcat(cfg, s, Check(c, id, text), Proceeds(c, 5));
    FromVerifying(cfg, After(cfg, s, Check(c, id, text)), c, 5);
  }

  // ---------- what a request is answered ----------

  /** The answer of a verification that nothing interrupts. */
  predicate VerifyAnswer(cfg: Config, s: State, id: Id, text: string, reply: Reply) {
    match reply
    case Invalid => text == ""
    case NotFound => text != "" && id !in s.store.orders
    case Conflict => text != "" && id in s.store.orders && s.store.orders[id].status != Pending
    case Unpaid =>
      && text != "" && id in s.store.orders && s.store.orders[id].status == Pending
      && !AcceptsTotal(cfg, s, text, s.store.orders[id].total)
    case HashReused =>
      && text != "" && id in s.store.orders && s.store.orders[id].status == Pending
      && AcceptsTotal(cfg, s, text, s.store.orders[id].total)
      && text in s.store.txOwner && s.store.txOwner[text] != id
    case Done => Payable(cfg, s, id, text)
    case Aborted => false
  }

  /** A verification running alone ends with the one answer that is true of its order and hash; it records the payment
      when that answer is Done, and leaves the store as it was otherwise. */
  lemma VerificationAlone(cfg: Config, s: State, c: nat, id: Id, text: string) returns (reply: Reply)
    requires c !in s.calls
    ensures var r := After(cfg, s, Pay(c, id, text));
      && c in r.calls && r.calls[c] == Finished(reply) && VerifyAnswer(cfg, s, id, text, reply)
      && (forall other | VerifyAnswer(cfg, s, id, text, other) :: other == reply)
      && if reply == Done then Recorded(s, r, c, id, s.store.orders[id], Paid, Some(text)) else r.store == s.store
  {
    hide After, AcceptsTotal;
    if Payable(cfg, s, id, text) {
      PaymentGoesThrough(cfg, s, c, id, text);
      return Done;
    }
    PayIs(c, id, text);
    AfterCons(cfg, s, BeginVerify(c, id, text), Proceeds(c, 6));
    var s1 := Apply(cfg, s, BeginVerify(c, id, text));
    if text == "" {
      FinishedIsIdle(cfg, s1, c, 6);
      return Invalid;
    }
    assert s1 == Move(s, c, VerifyGet(id, text));
    FirstProceed(cfg, s1, c, 6);
    ProceedSteps(cfg, s1, c);
    var s2 := CheckPending(s1, c, id, text);
    if s2.calls[c].Finished? {
      FinishedIsIdle(cfg, s2, c, 5);
      reply := s2.calls[c].reply;
    } else {
      AcceptsSame(cfg, s, s2, text, s.store.orders[id].total);
      reply := RefusedPayment(cfg, s2, c);
    }
  }

  lemma PayIs(c: nat, id: Id, text: string)
    ensures Pay(c, id, text) == [BeginVerify(c, id, text)] + Proceeds(c, 6)
  {
  }

  lemma AcceptsSame(cfg: Config, s: State, r: State, text: string, total: real)
    requires r.chain == s.chain && r.latest == s.latest
    ensures AcceptsTotal(cfg, s, text, total) <==> AcceptsTotal(cfg, r, text, total)
  {
  }

  lemma RefusedPayment(cfg: Config, s: State, c: nat) returns (reply: Reply)
    requires c in s.calls && s.calls[c].Verifying? && s.calls[c].id in s.store.orders && s.calls[c].text != ""
    requires AcceptsTotal(cfg, s, s.calls[c].text, s.calls[c].total) ==>
      !Free(s.store, Some(s.calls[c].text), s.calls[c].id)
    ensures reply == if AcceptsTotal(cfg, s, s.calls[c].text, s.calls[c].total) then HashReused else Unpaid
    ensures var r := After(cfg, s, Proceeds(c, 5)); c in r.calls && r.calls[c] == Finished(reply) && r.store == s.store
  {
    hide After, AcceptsTotal, Apply;
    var call := s.calls[c];
    FirstProceed(cfg, s, c, 5);
    ProceedSteps(cfg, s, c);
    CheckPays(cfg, s, c, call);
    if !AcceptsTotal(cfg, s, call.text, call.total) {
      FinishedIsIdle(cfg, Move(s, c, Finished(Unpaid)), c, 4);
      return Unpaid;
    }
    var s1 := Move(s, c, UpdateGet(call.id, Paid, Some(call.text)));
    UpdateRefused(cfg, s1, c, 4);
    reply := HashReused;
  }

  /** An update with a hash reserved for another order is refused. */
  lemma UpdateRefused(cfg: Config, s: State, c: nat, n: nat)
    requires n >= 3 && c in s.calls && s.calls[c].UpdateGet? && s.calls[c].id in s.store.orders
    requires !Free(s.store, s.calls[c].hash, s.calls[c].id)
    ensures var r := After(cfg, s, Proceeds(c, n));
      c in r.calls && r.calls[c] == Finished(HashReused) && r.store == s.store
  {
    hide After, Apply;
    var call := s.calls[c];
    var s1 := Move(s, c, Reserving(call.id, call.status, call.hash.value, s.store.orders[call.id]));
    var s2 := Move(s1, c, CheckingOwner(call.id, call.status, call.hash.value, s.store.orders[call.id]));
    FirstProceed(cfg, s, c, n);
    ProceedSteps(cfg, s, c);
    FirstProceed(cfg, s1, c, n - 1);
    ProceedSteps(cfg, s1, c);
    FirstProceed(cfg, s2, c, n - 2);
    ProceedSteps(cfg, s2, c);
    FinishedIsIdle(cfg, Move(s2, c, Finished(HashReused)), c, n - 3);
  }

  /** A whole cancellation. */
  function Cancel(c: nat, id: Id, wallet: string): seq<Event> {
    [BeginCancel(c, id, wallet)] + Proceeds(c, 5)
  }

  /** A cancellation running alone marks its own wallet's pending order as failed; a missing order is not found, and a
      foreign or settled one is left alone. */
  lemma CancellationAlone(cfg: Config, s: State, c: nat, id: Id, wallet: string)
    requires c !in s.calls
    ensures var r := After(cfg, s, Cancel(c, id, wallet));
      if id !in s.store.orders then Lookup(r.calls, c) == Some(Finished(NotFound)) && r.store == s.store
      else if s.store.orders[id].wallet != wallet || s.store.orders[id].status != Pending then
        Lookup(r.calls, c) == Some(Finished(Conflict)) && r.store == s.store
      else Recorded(s, r, c, id, s.store.orders[id], Failed, None)
  {
    hide After, Apply;
    var s1 := Move(s, c, CancelGet(id, wallet));
    AfterCons(cfg, s, BeginCancel(c, id, wallet), Proceeds(c, 5));
    CancelBegins(cfg, s, c, id, wallet);
    FirstProceed(cfg, s1, c, 5);
    ProceedSteps(cfg, s1, c);
    var s2 := CheckCancel(s1, c, id, wallet);
    if s2.calls[c].Finished? { FinishedIsIdle(cfg, s2, c, 4); } else { FromUpdate(cfg, s2, c, 4); }
  }

  lemma CancelBegins(cfg: Config, s: State, c: nat, id: Id, wallet: string)
    requires c !in s.calls
    ensures Apply(cfg, s, BeginCancel(c, id, wallet)) == Move(s, c, CancelGet(id, wallet))
  {
  }

  lemma CheckPaysIf(cfg: Config, s: State, c: nat)
    requires c in s.calls
    ensures s.calls[c].Verifying? ==>
      Step(cfg, s, c, s.calls[c]) ==
        if AcceptsTotal(cfg, s, s.calls[c].text, s.calls[c].total)
        then Move(s, c, UpdateGet(s.calls[c].id, Paid, Some(s.calls[c].text))) else Move(s, c, Finished(Unpaid))
  {
    if s.calls[c].Verifying? { CheckPays(cfg, s, c, s.calls[c]); }
  }

  /** Under any interleaving, a settlement call that ends tells the truth about the instant at which it ends. */
  lemma AnswersAreTrue(cfg: Config, s: State, e: Event, c: nat)
    requires c in s.calls && InSettlement(s.calls[c])
    requires c in Apply(cfg, s, e).calls && Apply(cfg, s, e).calls[c].Finished?
    ensures e == Proceed(c) || e == Abort(c)
    ensures var call, r := s.calls[c], Apply(cfg, s, e);
      match r.calls[c].reply
      case Aborted => e == Abort(c) && r.store == s.store
      case NotFound => call.id !in s.store.orders
      case Conflict =>
        && call.id in s.store.orders
        && (|| s.store.orders[call.id].status != Pending
            || (call.CancelGet? && s.store.orders[call.id].wallet != call.wallet))
      case Unpaid => call.Verifying? && !AcceptsTotal(cfg, s, call.text, call.total)
      case HashReused => call.CheckingOwner? && Lookup(s.store.txOwner, call.text) != Some(call.id)
      case Done =>
        && call.Writing? && call.id in r.store.orders
        && r.store.orders[call.id].status == call.status && r.store.orders[call.id].txHash == call.hash
      case Invalid => false
  {
    hide Apply, AcceptsTotal;
    if e == Proceed(c) {
      CheckPaysIf(cfg, s, c);
      ProceedSteps(cfg, s, c);
    } else {
      OthersStay(cfg, s, e);
      assert Caller(e) != Some(c) ==> Lookup(Apply(cfg, s, e).calls, c) == Lookup(s.calls, c);
      OnlyAbortEnds(cfg, s, e, c);
    }
  }

  lemma OnlyAbortEnds(cfg: Config, s: State, e: Event, c: nat)
    requires Caller(e) == Some(c) && e != Proceed(c) && c in s.calls && InSettlement(s.calls[c])
    ensures Apply(cfg, s, e) == if e.Abort? then Move(s, c, Finished(Aborted)) else Stay(s)
  {
    hide Step, EndAttempt;
  }

  /** A checkout of one line running alone. */
  function Buy(c: nat, wallet: string, line: Line, id: Id, created: int): seq<Event> {
    [BeginCheckout(c, Cart(wallet, [line]))] +
      ([Watch(c)] + ([Read(c, line.article)] + [Exec(c, id, created, created)]))
  }

  lemma CheckoutGoesThrough(cfg: Config, s: State, c: nat, wallet: string, line: Line, id: Id, created: int)
    requires c !in s.calls && id !in s.store.orders
    requires line.article in s.store.articles && line.quantity <= s.store.articles[line.article].quantity
    ensures var r := After(cfg, s, Buy(c, wallet, line, id, created));
      && r.store == PlaceOrder(cfg, s.store,
        map[line.article := Sell(s.store.articles[line.article], line.quantity, created)],
                               Cart(wallet, [line]), id, created)
      && r.calls == s.calls[c := Placed(Cart(wallet, [line]), |s.log|, id)]
      && r.chain == s.chain && r.latest == s.latest
  {
    hide After, PlaceOrder;
    var a, cart, t := line.article, Cart(wallet, [line]), |s.log|;
    var e1, e2, e3, e4 := BeginCheckout(c, cart), Watch(c), Read(c, a), Exec(c, id, created, created);
    var s1 := Move(s, c, Retrying(cart, t, 0));
    var s2 := Move(s1, c, Reading(cart, t, 0, t + 1, map[]));
    var s3 := Move(s2, c, Reading(cart, t, 0, t + 1, map[a := Some(s.store.articles[a])]));
    AfterCons(cfg, s, e1, [e2] + ([e3] + [e4]));
    assert Apply(cfg, s, e1) == s1;
    AfterCons(cfg, s1, e2, [e3] + [e4]);
    WatchBegins(cfg, s1, c);
    AfterCons(cfg, s2, e3, [e4]);
    ReadsOne(cfg, s2, c, line);
    AfterOne(cfg, s3, e4);
    ReadyToPlace(cfg, s3, c, wallet, line, id, created);
    assert s3.calls == s.calls[c := s3.calls[c]];
  }

  lemma WatchBegins(cfg: Config, s: State, c: nat)
    requires c in s.calls && s.calls[c].Retrying?
    ensures var call := s.calls[c];
      Apply(cfg, s, Watch(c)) == Move(s, c, Reading(call.cart, call.start, call.attempt, |s.log|, map[]))
  {
  }

  lemma ReadsOne(cfg: Config, s: State, c: nat, line: Line)
    requires c in s.calls && s.calls[c].Reading? && s.calls[c].cart.lines == [line] && s.calls[c].seen == map[]
    requires line.article in s.store.articles
    ensures Apply(cfg, s, Read(c, line.article)) ==
      Move(s, c, s.calls[c].(seen := map[line.article := Some(s.store.articles[line.article])]))
  {
    assert line in [line];
  }

  /** The EXEC of a one-line checkout whose only watched article was read and not written since. */
  lemma ReadyToPlace(cfg: Config, s: State, c: nat, wallet: string, line: Line, id: Id, created: int)
    requires c in s.calls && s.calls[c].Reading? && s.calls[c].cart == Cart(wallet, [line]) && id !in s.store.orders
    requires line.article in s.store.articles && line.quantity <= s.store.articles[line.article].quantity
    requires s.calls[c].seen == map[line.article := Some(s.store.articles[line.article])]
    requires forall i | s.calls[c].mark <= i < |s.log| :: s.log[i].keys == {}
    ensures var r := Apply(cfg, s, Exec(c, id, created, created));
      && r.store == PlaceOrder(cfg, s.store,
        map[line.article := Sell(s.store.articles[line.article], line.quantity, created)],
                               Cart(wallet, [line]), id, created)
      && r.calls == s.calls[c := Placed(Cart(wallet, [line]), s.calls[c].start, id)]
      && r.chain == s.chain && r.latest == s.latest
  {
    hide Apply, PlaceOrder;
    var a := line.article;
    var x := s.store.articles[a];
    ExecSteps(cfg, s, c, id, created, created);
    assert KeySet([line]) == {a};
    assert Loaded(s.calls[c].seen) == map[a := x];
    assert Take(map[a := x], [line], created) == Filled(map[a := Sell(x, line.quantity, created)]) by {
      assert [line][1..] == [];
      assert map[a := x][a := Sell(x, line.quantity, created)] == map[a := Sell(x, line.quantity, created)];
    }
  }
}
