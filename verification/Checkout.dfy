/** What the result of a checkout call says, over every interleaving. */
module Checkout {
  import opened Model
  import opened Stock
  import opened Redis
  import opened Linearize
  import Spec

  // ---------- refusals ----------

  ghost predicate HeldAt(cfg: Config, events: seq<Event>, i: nat, a: Id, found: Option<Article>) {
    i <= |events| && Lookup(At(cfg, events, i).store.articles, a) == found
  }

  lemma HeldLater(cfg: Config, events: seq<Event>, n: nat, i: nat, a: Id, found: Option<Article>)
    requires n <= |events| && HeldAt(cfg, events[..n], i, a, found)
    ensures HeldAt(cfg, events, i, a, found)
  {
    hide Apply;
    assert events[..n][..i] == events[..i];
  }

  /** Whatever a checkout read was the stored document at some instant since the call began. */
  lemma {:induction false} SeenWasTrue(cfg: Config, events: seq<Event>, c: nat, a: Id)
    requires c in Run(cfg, events).calls
    requires var call := Run(cfg, events).calls[c]; call.Reading? && a in call.seen
    ensures var call := Run(cfg, events).calls[c];
      call.start <= |events| && exists i :: call.start <= i <= |events| && HeldAt(cfg, events, i, a, call.seen[a])
  {
    hide Apply;
    var n := |events| - 1;
    var s, e, call := Run(cfg, events[..n]), events[n], Run(cfg, events).calls[c];
    CallsStartInThePast(cfg, events[..n]);
    OthersStay(cfg, s, e);
    if Caller(e) == Some(c) { AttemptMoves(cfg, s, e, c); } else { assert Lookup(s.calls, c) == Some(call); }
    if s.calls[c].Reading? && a in s.calls[c].seen {
      SeenWasTrue(cfg, events[..n], c, a);
      var i :| call.start <= i <= n && HeldAt(cfg, events[..n], i, a, call.seen[a]);
      HeldLater(cfg, events, n, i, a, call.seen[a]);
    } else {
      assert HeldAt(cfg, events, n, a, call.seen[a]);
    }
  }

  predicate StartsPast(call: Call, now: nat) {
    (call.Retrying? || call.Reading?) ==> call.start <= now
  }

  lemma StartMoves(cfg: Config, s: State, e: Event, c: nat)
    requires Caller(e) == Some(c) && c in Apply(cfg, s, e).calls
    requires c in s.calls ==> StartsPast(s.calls[c], |s.log|)
    ensures StartsPast(Apply(cfg, s, e).calls[c], |s.log|)
  {
    hide Step;
    match e
    case Exec(_, _, _, _) =>
    case Proceed(_) => if c in s.calls { StepLeavesCheckout(cfg, s, c, s.calls[c]); }
    case _ =>
  }

  lemma {:induction false} CallsStartInThePast(cfg: Config, events: seq<Event>)
    ensures forall c | c in Run(cfg, events).calls :: StartsPast(Run(cfg, events).calls[c], |events|)
  {
    hide Apply;
    if events == [] {
    } else {
      var n := |events| - 1;
      var s, e := Run(cfg, events[..n]), events[n];
      CallsStartInThePast(cfg, events[..n]);
      OthersStay(cfg, s, e);
      forall c | c in Run(cfg, events).calls ensures StartsPast(Run(cfg, events).calls[c], |events|) {
        if Caller(e) == Some(c) { StartMoves(cfg, s, e, c); }
        else { assert Lookup(Run(cfg, events).calls, c) == Lookup(s.calls, c); }
      }
    }
  }

  /** The atomic checkout, run at instant `i`, would have refused the same cart, with `short` short. */
  ghost predicate WouldRefuse(cfg: Config, events: seq<Event>, i: nat, cart: Cart, short: Id) {
    && i <= |events|
    && !Covers(At(cfg, events, i).store.articles, cart.lines)
    && short in KeySet(cart.lines)
    && (short in At(cfg, events, i).store.articles ==>
          At(cfg, events, i).store.articles[short].quantity < Demand(cart.lines, short))
  }

  /** The outcome of the last step of an attempt, for any run and any other calls:
      a placed order is the atomic operation on the shop as it stands at EXEC, although the reads came earlier;
      a refusal was true at some instant of the call; every other outcome changes nothing. */
  lemma CheckoutIsLinearizable(cfg: Config, events: seq<Event>, n: nat, call: Call)
    requires n < |events| && events[n].Exec? && CanExec(At(cfg, events, n), events[n].c, events[n].id)
    requires call == At(cfg, events, n).calls[events[n].c] && Positive(call.cart.lines)
    ensures events[n].c in At(cfg, events, n + 1).calls
    ensures var e, before, after := events[n], At(cfg, events, n), At(cfg, events, n + 1);
      match after.calls[e.c]
      case Placed(cart, _, id) =>
        && cart == call.cart && id == e.id && id !in before.store.orders
        && Covers(before.store.articles, cart.lines)
        && View(after.store) ==
          Spec.Perform(View(before.store), Spec.Place(cart.wallet, cart.lines, id, e.created, e.now))
        && Lookup(after.store.orders, id) == Some(Spec.NewOrder(cart.wallet, cart.lines, e.created))
        && after.store.orders[id].total == Sum(UnitPrices(cart.lines))
      case Refused(cart, start, short) =>
        && cart == call.cart && after.store == before.store
        && exists i :: start <= i <= n && WouldRefuse(cfg, events, i, cart, short)
      case to =>
        && (to.Retrying? || to.Contended?) && after.store == before.store
        && !Clean(before.log, call.mark, KeySet(call.cart.lines))
  {
    hide Apply, EndAttempt, WouldRefuse, Take;
    var e, s := events[n], At(cfg, events, n);
    var lines := call.cart.lines;
    AtNext(cfg, events, n);
    RunInv(cfg, events[..n]);
    assert FreshCall(s, call);
    EventRefines(cfg, s, e);
    ExecSteps(cfg, s, e.c, e.id, e.created, e.now);
    AttemptOutcome(cfg, s, e.c, call, e.id, e.created, e.now);
    GreedyEqualsAggregate(s.store.articles, lines, e.now);
    EveryUnitIsPaid(lines);
    if Take(Loaded(call.seen), lines, e.now).Short? {
      RefusalWasTrue(cfg, events, n, call);
    } else if Clean(s.log, call.mark, KeySet(lines)) {
      ReadsAreCurrent(s, call);
      TakeIsLocal(Loaded(call.seen), s.store.articles, lines, e.now);
    }
  }

  /** The three ways an attempt ends. */
  lemma AttemptOutcome(cfg: Config, s: State, c: nat, call: Call, id: Id, created: int, now: int)
    requires call.Reading?
    ensures var r := EndAttempt(cfg, s, c, call, id, created, now);
      c in r.calls &&
      match Take(Loaded(call.seen), call.cart.lines, now)
      case Short(a) => r.calls[c] == Refused(call.cart, call.start, a) && r.store == s.store
      case Filled(_) =>
        if Clean(s.log, call.mark, KeySet(call.cart.lines)) then
          r.calls[c] == Placed(call.cart, call.start, id) &&
          Lookup(r.store.orders, id) == Some(Spec.NewOrder(call.cart.wallet, call.cart.lines, created))
        else
          && r.store == s.store
          && r.calls[c] == (if call.attempt + 1 < 5 then Retrying(call.cart, call.start, call.attempt + 1)
                            else Contended(call.cart, call.start))
  {
    hide Take, Clean;
  }

  lemma RefusalWasTrue(cfg: Config, events: seq<Event>, n: nat, call: Call)
    requires n < |events| && events[n].Exec? && CanExec(At(cfg, events, n), events[n].c, events[n].id)
    requires call == At(cfg, events, n).calls[events[n].c] && Positive(call.cart.lines)
    requires Take(Loaded(call.seen), call.cart.lines, events[n].now).Short?
    ensures var short := Take(Loaded(call.seen), call.cart.lines, events[n].now).article;
      exists i :: call.start <= i <= n && WouldRefuse(cfg, events, i, call.cart, short)
  {
    hide Apply, Take;
    var e, lines := events[n], call.cart.lines;
    RefusalIsTrue(Loaded(call.seen), lines, e.now);
    var short := Take(Loaded(call.seen), lines, e.now).article;
    SeenWasTrue(cfg, events[..n], e.c, short);
    var i :| call.start <= i <= n && HeldAt(cfg, events[..n], i, short, call.seen[short]);
    HeldLater(cfg, events, n, i, short, call.seen[short]);
    assert WouldRefuse(cfg, events, i, call.cart, short);
  }

  // ---------- retries ----------

  /** Events in [lo, hi) by which another call wrote one of `keys`. */
  function Conflicts(log: seq<Entry>, lo: nat, hi: nat, c: nat, keys: set<Id>): nat
    requires hi <= |log|
  {
    if hi <= lo then 0
    else
      Conflicts(log, lo, hi - 1, c, keys) +
      if log[hi - 1].caller != Some(c) && !(log[hi - 1].keys !! keys) then 1 else 0
  }

  lemma ConflictsOfPrefix(log: seq<Entry>, longer: seq<Entry>, lo: nat, hi: nat, c: nat, keys: set<Id>)
    requires hi <= |log| && log <= longer
    ensures Conflicts(longer, lo, hi, c, keys) == Conflicts(log, lo, hi, c, keys)
  {
  }

  lemma {:induction false} ConflictsGrow(log: seq<Entry>, lo: nat, mid: nat, hi: nat, c: nat, keys: set<Id>)
    requires lo <= mid <= hi <= |log|
    ensures Conflicts(log, lo, mid, c, keys) <= Conflicts(log, lo, hi, c, keys)
    ensures (exists i :: mid <= i < hi && log[i].caller != Some(c) && !(log[i].keys !! keys)) ==>
      Conflicts(log, lo, mid, c, keys) < Conflicts(log, lo, hi, c, keys)
  {
    if mid == hi {
    } else {
      ConflictsGrow(log, lo, mid, hi - 1, c, keys);
    }
  }

  /** Each failed attempt is charged to a different write by somebody else. */
  predicate Accounted(log: seq<Entry>, c: nat, call: Call) {
    match call
    case Retrying(cart, start, attempt) =>
      start <= |log| && attempt <= Conflicts(log, start, |log|, c, KeySet(cart.lines))
    case Reading(cart, start, attempt, mark, _) =>
      && start <= mark <= |log|
      && attempt <= Conflicts(log, start, mark, c, KeySet(cart.lines))
      && forall i | mark <= i < |log| :: log[i].caller == Some(c) ==> log[i].keys == {}
    case Contended(cart, start) =>
      start <= |log| && CREATE_MAX_RETRIES <= Conflicts(log, start, |log|, c, KeySet(cart.lines))
    case _ => true
  }

  lemma AccountedSurvives(log: seq<Entry>, x: Entry, c: nat, call: Call)
    requires Accounted(log, c, call) && (call.Reading? && x.caller == Some(c) ==> x.keys == {})
    ensures Accounted(log + [x], c, call)
  {
    var longer := log + [x];
    if call.Retrying? || call.Contended? {
      ConflictsOfPrefix(log, longer, call.start, |log|, c, KeySet(call.cart.lines));
      ConflictsGrow(longer, call.start, |log|, |longer|, c, KeySet(call.cart.lines));
    } else if call.Reading? {
      ConflictsOfPrefix(log, longer, call.start, call.mark, c, KeySet(call.cart.lines));
    }
  }

  lemma AttemptCharged(cfg: Config, s: State, e: Event)
    requires e.Exec? && CanExec(s, e.c, e.id) && Accounted(s.log, e.c, s.calls[e.c])
    ensures Accounted(Apply(cfg, s, e).log, e.c, Apply(cfg, s, e).calls[e.c])
  {
    var call, r := s.calls[e.c], Apply(cfg, s, e);
    var keys := KeySet(call.cart.lines);
    if !Clean(s.log, call.mark, keys) {
      var i :| call.mark <= i < |s.log| && !(s.log[i].keys !! keys);
      assert s.log[i].caller != Some(e.c);
      ConflictsGrow(s.log, call.start, call.mark, |s.log|, e.c, keys);
      ConflictsOfPrefix(s.log, r.log, call.start, |s.log|, e.c, keys);
      ConflictsGrow(r.log, call.start, |s.log|, |r.log|, e.c, keys);
    }
  }

  /** The other ways a call's own event moves it. */
  lemma OwnMoveAccounted(cfg: Config, s: State, e: Event, c: nat)
    requires Caller(e) == Some(c) && c in Apply(cfg, s, e).calls
    requires !(e.Exec? && CanExec(s, e.c, e.id))
    requires c in s.calls ==> Accounted(s.log, c, s.calls[c])
    ensures Accounted(Apply(cfg, s, e).log, c, Apply(cfg, s, e).calls[c])
  {
    hide Apply, Step, EndAttempt;
    var r := Apply(cfg, s, e);
    if e.Proceed? {
      ProceedSteps(cfg, s, c);
      if c in s.calls {
        StepLeavesCreate(cfg, s, c, s.calls[c]);
        StepLogged(cfg, s, c, s.calls[c]);
        AccountedSurvives(s.log, LastEntry(r), c, s.calls[c]);
      }
    } else if e.Exec? {
      ExecSteps(cfg, s, c, e.id, e.created, e.now);
      AccountedSurvives(s.log, LastEntry(r), c, s.calls[c]);
    } else {
      QuietAttempt(cfg, s, e, c);
      if c in s.calls && IsAttempt(s.calls[c]) {
        AccountedSurvives(s.log, LastEntry(r), c, s.calls[c]);
        if s.calls[c].Retrying? {
          ConflictsOfPrefix(s.log, r.log, s.calls[c].start, |s.log|, c, KeySet(s.calls[c].cart.lines));
        }
      }
    }
  }

  predicate IsAttempt(call: Call) {
    call.Retrying? || call.Reading? || call.Contended?
  }

  /** Outside EXEC, an attempt begins, starts reading after WATCH, or reads on. */
  lemma QuietAttempt(cfg: Config, s: State, e: Event, c: nat)
    requires !e.Proceed? && !e.Exec? && Caller(e) == Some(c) && c in Apply(cfg, s, e).calls
    ensures var r := Apply(cfg, s, e); var to := r.calls[c];
      if c in s.calls && IsAttempt(s.calls[c]) then
        var call := s.calls[c];
        && LastEntry(r).keys == {}
        && (|| to == call
            || (call.Retrying? && to == Reading(call.cart, call.start, call.attempt, |s.log|, map[]))
            || (call.Reading? && to == call.(seen := to.seen)))
      else !to.Reading? && !to.Contended? && (to.Retrying? ==> to.start == |s.log| && to.attempt == 0)
  {
    hide Edited, FreshArticle, EndAttempt, Step, KeySet;
  }

  lemma StepLeavesCreate(cfg: Config, s: State, c: nat, call: Call)
    requires c in s.calls && s.calls[c] == call
    ensures var to := Step(cfg, s, c, call).calls[c];
      to.Retrying? || to.Reading? || to.Contended? || to.Placed? ==> to == call && Step(cfg, s, c, call) == Stay(s)
    ensures call.Placed? ==> Step(cfg, s, c, call) == Stay(s)
  {
  }

  lemma {:induction false} AllAccounted(cfg: Config, events: seq<Event>)
    ensures forall c | c in Run(cfg, events).calls :: Accounted(Run(cfg, events).log, c, Run(cfg, events).calls[c])
  {
    hide Apply;
    if events == [] {
    } else {
      var n := |events| - 1;
      var s, e, r := Run(cfg, events[..n]), events[n], Run(cfg, events);
      AllAccounted(cfg, events[..n]);
      OthersStay(cfg, s, e);
      CallerLogged(cfg, s, e);
      forall c | c in r.calls ensures Accounted(r.log, c, r.calls[c]) {
        if Caller(e) != Some(c) {
          assert Lookup(r.calls, c) == Lookup(s.calls, c);
          AccountedSurvives(s.log, LastEntry(r), c, s.calls[c]);
        } else if e.Exec? && CanExec(s, e.c, e.id) {
          AttemptCharged(cfg, s, e);
        } else {
          OwnMoveAccounted(cfg, s, e, c);
        }
      }
    }
  }

  lemma CallerLogged(cfg: Config, s: State, e: Event)
    ensures LastEntry(Apply(cfg, s, e)).caller == None || LastEntry(Apply(cfg, s, e)).caller == Caller(e)
  {
    hide Apply, Step;
    EventEffect(cfg, s, e);
    if e.Proceed? && e.c in s.calls { StepLogged(cfg, s, e.c, s.calls[e.c]); }
  }

  lemma StepLogged(cfg: Config, s: State, c: nat, call: Call)
    ensures var x := LastEntry(Step(cfg, s, c, call));
      (x.caller == None || x.caller == Some(c)) && x.keys == {} && !x.placed
  {
  }

  // ---------- five attempts ----------

  /** How often the call has begun an attempt by its WATCH. */
  ghost function Watches(cfg: Config, events: seq<Event>, c: nat): nat {
    if events == [] then 0
    else
      var n := |events| - 1;
      var calls := Run(cfg, events[..n]).calls;
      Watches(cfg, events[..n], c) + if events[n] == Watch(c) && c in calls && calls[c].Retrying? then 1 else 0
  }

  /** What the number of attempts says about where the call stands. */
  predicate Counted(watches: nat, call: Option<Call>) {
    match call
    case Some(Retrying(_, _, failed)) => watches == failed < 5
    case Some(Reading(_, _, failed, _, _)) => watches == failed + 1 <= 5
    case Some(Placed(_, _, _)) => 1 <= watches <= 5
    case Some(Refused(_, _, _)) => 1 <= watches <= 5
    case Some(Contended(_, _)) => watches == 5
    case _ => watches == 0
  }

  lemma QuietCounted(cfg: Config, s: State, e: Event, c: nat, watches: nat)
    requires !e.Proceed? && !e.Exec? && Caller(e) == Some(c) && Counted(watches, Lookup(s.calls, c))
    ensures Counted(watches + if e.Watch? && c in s.calls && s.calls[c].Retrying? then 1 else 0,
      Lookup(Apply(cfg, s, e).calls, c))
  {
    hide Begin, Continue;
    if !Begins(e) {
      ContinueCounted(cfg, s, e, c, watches);
    } else if c !in s.calls {
      BeginCounted(cfg, s, e, c);
    }
  }

  lemma BeginCounted(cfg: Config, s: State, e: Event, c: nat)
    requires Begins(e) && e.c == c && c !in s.calls
    ensures Counted(0, Lookup(Begin(cfg, s, e).calls, c))
  {
    hide FreshArticle;
  }

  lemma ContinueCounted(cfg: Config, s: State, e: Event, c: nat, watches: nat)
    requires !Begins(e) && !e.Proceed? && !e.Exec? && Caller(e) == Some(c) && Counted(watches, Lookup(s.calls, c))
    ensures Counted(watches + if e.Watch? && c in s.calls && s.calls[c].Retrying? then 1 else 0,
      Lookup(Continue(cfg, s, e).calls, c))
  {
    hide Edited, EndAttempt, Step, KeySet;
  }

  lemma StepCounted(cfg: Config, s: State, c: nat, call: Call, watches: nat)
    requires c in s.calls && s.calls[c] == call && Counted(watches, Some(call))
    ensures Counted(watches, Lookup(Step(cfg, s, c, call).calls, c))
  {
  }

  lemma ExecCounted(cfg: Config, s: State, e: Event, watches: nat)
    requires e.Exec? && Counted(watches, Lookup(s.calls, e.c))
    ensures Counted(watches, Lookup(Apply(cfg, s, e).calls, e.c))
  {
    hide Apply, EndAttempt, Take, Clean;
    ExecSteps(cfg, s, e.c, e.id, e.created, e.now);
    if CanExec(s, e.c, e.id) { AttemptOutcome(cfg, s, e.c, s.calls[e.c], e.id, e.created, e.now); }
  }

  /** A checkout makes at most five attempts; a failed one is followed by another unless it was the fifth, and only five
      failed attempts end in giving up. */
  lemma {:induction false} AtMostFiveAttempts(cfg: Config, events: seq<Event>, c: nat)
    ensures Watches(cfg, events, c) <= 5 && Counted(Watches(cfg, events, c), Lookup(Run(cfg, events).calls, c))
  {
    hide Apply, Step;
    if events == [] {
    } else {
      var n := |events| - 1;
      var s, e, w := Run(cfg, events[..n]), events[n], Watches(cfg, events[..n], c);
      AtMostFiveAttempts(cfg, events[..n], c);
      OthersStay(cfg, s, e);
      if Caller(e) != Some(c) {
        assert Lookup(Apply(cfg, s, e).calls, c) == Lookup(s.calls, c);
      } else if e.Proceed? {
        ProceedSteps(cfg, s, c);
        if c in s.calls { StepCounted(cfg, s, c, s.calls[c], w); }
      } else if e.Exec? {
        ExecCounted(cfg, s, e, w);
      } else {
        QuietCounted(cfg, s, e, c, w);
      }
    }
  }

  // ---------- commits ----------

  function CommitsBy(log: seq<Entry>, c: nat): nat {
    if log == [] then 0
    else CommitsBy(log[..|log| - 1], c) + if log[|log| - 1].placed && log[|log| - 1].caller == Some(c) then 1 else 0
  }

  function IsPlaced(s: State, c: nat): nat {
    if c in s.calls && s.calls[c].Placed? then 1 else 0
  }

  /** A commit is logged exactly when a call turns from reading to placed; a placed call stays placed. */
  lemma CommitsMove(cfg: Config, s: State, e: Event, c: nat)
    ensures var r := Apply(cfg, s, e); var x := LastEntry(r);
      IsPlaced(r, c) == IsPlaced(s, c) + if x.placed && x.caller == Some(c) then 1 else 0
  {
    hide Apply, Step, EndAttempt;
    OthersStay(cfg, s, e);
    CallerLogged(cfg, s, e);
    var r := Apply(cfg, s, e);
    if Caller(e) != Some(c) {
      assert Lookup(r.calls, c) == Lookup(s.calls, c);
    } else {
      EventEffect(cfg, s, e);
      if e.Proceed? {
        if c in s.calls { StepLogged(cfg, s, c, s.calls[c]); StepLeavesCreate(cfg, s, c, s.calls[c]); }
      } else if !e.Exec? {
        QuietPlaced(cfg, s, e, c);
      }
    }
  }

  lemma QuietPlaced(cfg: Config, s: State, e: Event, c: nat)
    requires !e.Proceed? && !e.Exec? && Caller(e) == Some(c)
    ensures IsPlaced(Apply(cfg, s, e), c) == IsPlaced(s, c)
  {
    hide Edited, FreshArticle, EndAttempt, Step;
  }

  /** Success means exactly one commit by this call; any other state of the call means none. */
  lemma {:induction false} OneCommitPerSuccess(cfg: Config, events: seq<Event>, c: nat)
    ensures CommitsBy(Run(cfg, events).log, c) == IsPlaced(Run(cfg, events), c)
  {
    hide Apply;
    if events == [] {
    } else {
      var n := |events| - 1;
      var s, r := Run(cfg, events[..n]), Run(cfg, events);
      OneCommitPerSuccess(cfg, events[..n], c);
      CommitsMove(cfg, s, events[n], c);
      assert r.log[..|r.log| - 1] == s.log;
    }
  }

  /** Outside catalogue maintenance, whoever writes an article has just placed an order. */
  lemma WritersPlaceOrders(cfg: Config, s: State, e: Event)
    requires !EditsCatalogue(e)
    ensures var r := Apply(cfg, s, e); var x := LastEntry(r);
      && (x.keys != {} ==> x.placed)
      && |r.store.orders| >= |s.store.orders| + if x.placed then 1 else 0
    requires Snapshots(s)
  {
    hide Apply, Step;
    EventEffect(cfg, s, e);
    if e.Proceed? && e.c in s.calls {
      StepLogged(cfg, s, e.c, s.calls[e.c]);
      StepOrders(cfg, s, e.c, s.calls[e.c]);
    } else if e.Exec? && CanExec(s, e.c, e.id) {
      NewOrderCounts(s.store.orders, Apply(cfg, s, e).store.orders, e.id);
    }
  }

  lemma NewOrderCounts(was: map<Id, Order>, now: map<Id, Order>, id: Id)
    requires id !in was
    ensures id in now && now == was[id := now[id]] ==> |now| == |was| + 1
  {
    if id in now && now == was[id := now[id]] { assert now.Keys == was.Keys + {id}; }
  }

  lemma {:induction false} ConflictsPlaceOrders(cfg: Config, events: seq<Event>, lo: nat, c: nat, keys: set<Id>)
    requires lo <= |events| && forall i | lo <= i < |events| :: !EditsCatalogue(events[i])
    ensures |Run(cfg, events).store.orders| >=
      |At(cfg, events, lo).store.orders| + Conflicts(Run(cfg, events).log, lo, |events|, c, keys)
  {
    hide Apply;
    if lo == |events| {
      assert events[..lo] == events;
    } else {
      var n := |events| - 1;
      var s, r := Run(cfg, events[..n]), Run(cfg, events);
      assert events[..n][..lo] == events[..lo];
      ConflictsPlaceOrders(cfg, events[..n], lo, c, keys);
      RunInv(cfg, events[..n]);
      WritersPlaceOrders(cfg, s, events[n]);
      ConflictsOfPrefix(s.log, r.log, lo, n, c, keys);
    }
  }

  /** "Too much contention" is never spurious: five different writes by others hit the cart's articles during
      the call, and when no one maintains the catalogue meanwhile, at least five orders were placed: some
      checkout always gets through. */
  lemma ContentionMeansProgress(cfg: Config, events: seq<Event>, c: nat)
    requires c in Run(cfg, events).calls && Run(cfg, events).calls[c].Contended?
    ensures var call, s := Run(cfg, events).calls[c], Run(cfg, events);
      && call.start <= |events|
      && Conflicts(s.log, call.start, |events|, c, KeySet(call.cart.lines)) >= CREATE_MAX_RETRIES
      && ((forall i | call.start <= i < |events| :: !EditsCatalogue(events[i])) ==>
            |s.store.orders| >= |At(cfg, events, call.start).store.orders| + CREATE_MAX_RETRIES)
  {
    hide Apply;
    var call := Run(cfg, events).calls[c];
    AllAccounted(cfg, events);
    assert Accounted(Run(cfg, events).log, c, call);
    if forall i | call.start <= i < |events| :: !EditsCatalogue(events[i]) {
      ConflictsPlaceOrders(cfg, events, call.start, c, KeySet(call.cart.lines));
    }
  }

  // ---------- conservation ----------

  /** A catalogue write that removes `a` or gives it another stock. */
  ghost predicate ChangesStock(s: State, e: Event, a: Id) {
    match OpOf(s, e)
    case PutArticle(b, value) => b == a && (a in s.store.articles ==> value.quantity != s.store.articles[a].quantity)
    case DropArticle(b) => b == a
    case _ => false
  }

  ghost predicate ConservesFrom(was: Store, now: Store, a: Id)
    requires a in was.articles
  {
    && a in now.articles
    && now.articles[a].quantity + Sold(now.orders, a) == was.articles[a].quantity + Sold(was.orders, a)
  }

  /** An event keeps an article's stock plus the units in all stored orders exactly when it is no catalogue write that
      removes the article or writes another stock than the one stored. A rename read before a checkout and saved
      after it is such a write. */
  lemma EventConservesIff(cfg: Config, s: State, e: Event, a: Id)
    requires Inv(s) && a in s.store.articles
    ensures ConservesFrom(s.store, Apply(cfg, s, e).store, a) <==> !ChangesStock(s, e, a)
    ensures !ChangesStock(s, e, a) && s.store.articles[a].quantity >= 0 ==>
      Apply(cfg, s, e).store.articles[a].quantity >= 0
  {
    hide Apply;
    EventRefines(cfg, s, e);
    match OpOf(s, e)
    case Place(_, _, id, _, _) => Spec.StepConserves(View(s.store), OpOf(s, e), a);
    case Settle(_, _, _) => Spec.StepConserves(View(s.store), OpOf(s, e), a);
    case _ =>
  }

  /** What a saved edit does to the stock: it conserves units exactly when the quantity it writes is the stored one. */
  lemma EditConservesIff(cfg: Config, s: State, e: Event)
    requires Inv(s) && e.SaveEdit? && e.c in s.calls && s.calls[e.c].Editing? &&
      s.calls[e.c].article in s.store.articles
    ensures var Editing(a, loaded) := s.calls[e.c];
      ConservesFrom(s.store, Apply(cfg, s, e).store, a) <==>
      (if e.quantity.Some? then e.quantity.value else loaded.quantity) == s.store.articles[a].quantity
  {
    hide Apply;
    EventConservesIff(cfg, s, e, s.calls[e.c].article);
  }

  /** No unit is lost or sold twice: between any two instants, harmless catalogue writes included, an article's stock
      plus what all stored orders hold of it is constant, and stock never becomes negative. */
  lemma {:induction false} StockIsConserved(cfg: Config, events: seq<Event>, m: nat, n: nat, a: Id)
    requires m <= n <= |events| && a in At(cfg, events, m).store.articles
    requires forall i | m <= i < n :: !ChangesStock(At(cfg, events, i), events[i], a)
    ensures ConservesFrom(At(cfg, events, m).store, At(cfg, events, n).store, a)
    ensures At(cfg, events, m).store.articles[a].quantity >= 0 ==> At(cfg, events, n).store.articles[a].quantity >= 0
  {
    hide Apply, Sold, ChangesStock;
    if m == n {
    } else {
      StockIsConserved(cfg, events, m, n - 1, a);
      var s, e := At(cfg, events, n - 1), events[n - 1];
      AtNext(cfg, events, n - 1);
      RunInv(cfg, events[..n - 1]);
      assert !ChangesStock(s, e, a);
      EventConservesIff(cfg, s, e, a);
    }
  }
}
