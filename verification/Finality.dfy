/** Finality: which settled orders can still change, and when none can. */
module Finality {
  import opened Model
  import opened Payment
  import opened Redis
  import opened Linearize
  import opened Settlement
  import opened Runs

  /** Exactly which event can change a stored order: the write-back of an update with another status or hash. */
  lemma OnlyWriteBacksChangeOrders(cfg: Config, s: State, e: Event, id: Id)
    requires Snapshots(s) && id in s.store.orders
    ensures id in Apply(cfg, s, e).store.orders
    ensures Apply(cfg, s, e).store.orders[id] != s.store.orders[id] <==>
      && e.Proceed? && e.c in s.calls && s.calls[e.c].Writing? && s.calls[e.c].id == id
      && (s.calls[e.c].status != s.store.orders[id].status || s.calls[e.c].hash != s.store.orders[id].txHash)
  {
    OrdersEffect(cfg, s, e);
    if e.Proceed? && e.c in s.calls { StepOrders(cfg, s, e.c, s.calls[e.c]); }
  }

  // ---------- calls past their check ----------

  predicate Handles(call: Call, id: Id) {
    InSettlement(call) && call.id == id
  }

  predicate PastCheck(call: Call) {
    call.Verifying? || call.UpdateGet? || call.Reserving? || call.CheckingOwner? || call.Writing?
  }

  lemma PastCheckMoves(cfg: Config, s: State, e: Event, c: nat)
    requires Caller(e) == Some(c) && !e.BeginUpdate?
    requires c in Apply(cfg, s, e).calls && PastCheck(Apply(cfg, s, e).calls[c])
    ensures var to := Apply(cfg, s, e).calls[c];
      && c in s.calls && Handles(s.calls[c], to.id)
      && (PastCheck(s.calls[c]) || (to.id in s.store.orders && s.store.orders[to.id].status == Pending))
      && Apply(cfg, s, e).store.orders == s.store.orders
  {
    hide Apply, Step;
    EventEffect(cfg, s, e);
    if e.Proceed? && e.c in s.calls { StepPastCheck(cfg, s, c, s.calls[c]); }
  }

  lemma StepPastCheck(cfg: Config, s: State, c: nat, call: Call)
    requires c in s.calls && s.calls[c] == call && PastCheck(Step(cfg, s, c, call).calls[c])
    ensures var to := Step(cfg, s, c, call).calls[c];
      && Handles(call, to.id)
      && (PastCheck(call) || (to.id in s.store.orders && s.store.orders[to.id].status == Pending))
      && Step(cfg, s, c, call).store.orders == s.store.orders
  {
    hide VerifyPayment, Wei;
  }

  // ---------- what a call under way would still write ----------

  datatype Target = Target(status: Status, hash: Option<string>)

  function Aim(call: Call): Target
    requires PastCheck(call)
  {
    match call
    case Verifying(_, text, _) => Target(Paid, Some(text))
    case UpdateGet(_, status, hash) => Target(status, hash)
    case Reserving(_, status, text, _) => Target(status, Some(text))
    case CheckingOwner(_, status, text, _) => Target(status, Some(text))
    case Writing(_, status, hash, _) => Target(status, hash)
  }

  /** A mined transaction that does not pay the total. */
  predicate MinedBad(cfg: Config, s: State, text: string, total: real) {
    && cfg.decode(text) in s.chain
    && var tx := s.chain[cfg.decode(text)];
       && !tx.pending
       && !(tx.success && tx.to.Some? && EqualFold(tx.to.value, cfg.wallet) && tx.value >= Wei(total, cfg.rate))
  }

  /** The call can never write: its hash is reserved for another order, or its transaction is mined and does not pay. */
  predicate Blocked(cfg: Config, s: State, call: Call)
    requires PastCheck(call)
  {
    || (!call.Writing? && !Free(s.store, Aim(call).hash, call.id))
    || (call.Verifying? && MinedBad(cfg, s, call.text, call.total))
  }

  /** A call under way, past its check on the order, would write something else and is not blocked. */
  predicate Threat(cfg: Config, s: State, c: nat, id: Id) {
    && c in s.calls && PastCheck(s.calls[c]) && s.calls[c].id == id && id in s.store.orders
    && Aim(s.calls[c]) != Target(s.store.orders[id].status, s.store.orders[id].txHash)
    && !Blocked(cfg, s, s.calls[c])
  }

  predicate IsSettled(s: State, id: Id) {
    id in s.store.orders && s.store.orders[id].status != Pending
  }

  /** Some continuation of the run, without direct status updates, changes the order. */
  ghost predicate CanChange(cfg: Config, events: seq<Event>, id: Id) {
    exists more :: NoUpdates(more) &&
      Lookup(Run(cfg, events + more).store.orders, id) != Lookup(Run(cfg, events).store.orders, id)
  }

  predicate NoUpdates(events: seq<Event>) {
    forall e | e in events :: !e.BeginUpdate?
  }

  // ---------- without a threat an order stays ----------

  lemma BlockedStays(cfg: Config, s: State, e: Event, call: Call)
    requires PastCheck(call) && Blocked(cfg, s, call)
    ensures Blocked(cfg, Apply(cfg, s, e), call)
  {
    hide Apply;
    if !call.Writing? && !Free(s.store, Aim(call).hash, call.id) {
      ReservationStep(cfg, s, e, Aim(call).hash.value);
    } else {
      ChainGrows(cfg, s, e, cfg.decode(call.text));
    }
  }

  /** A step past the check keeps the aim, and a blocked call does not get unblocked. */
  lemma StepAims(cfg: Config, s: State, c: nat, call: Call)
    requires c in s.calls && s.calls[c] == call && PastCheck(call) && PastCheck(Step(cfg, s, c, call).calls[c])
    ensures var r := Step(cfg, s, c, call); var to := r.calls[c];
      to.id == call.id && Aim(to) == Aim(call) && (Blocked(cfg, s, call) ==> Blocked(cfg, r, to))
  {
    hide AcceptsTotal, MinedBad;
    if call.Verifying? {
      CheckPays(cfg, s, c, call);
      BadIsRefused(cfg, s, call.text, call.total);
    }
  }

  lemma BadIsRefused(cfg: Config, s: State, text: string, total: real)
    ensures MinedBad(cfg, s, text, total) ==> !AcceptsTotal(cfg, s, text, total)
  {
  }

  lemma OwnThreatBefore(cfg: Config, s: State, e: Event, id: Id, c: nat)
    requires IsSettled(s, id) && !e.BeginUpdate? && Caller(e) == Some(c)
    requires Threat(cfg, Apply(cfg, s, e), c, id) &&
      Lookup(Apply(cfg, s, e).store.orders, id) == Some(s.store.orders[id])
    ensures Threat(cfg, s, c, id)
  {
    hide Apply, Step, Blocked;
    PastCheckMoves(cfg, s, e, c);
    assert PastCheck(s.calls[c]);
    EventEffect(cfg, s, e);
    if e.Proceed? {
      StepAims(cfg, s, c, s.calls[c]);
    } else {
      if Blocked(cfg, s, s.calls[c]) { BlockedStays(cfg, s, e, s.calls[c]); }
    }
  }

  lemma ThreatBefore(cfg: Config, s: State, e: Event, id: Id, c: nat)
    requires IsSettled(s, id) && !e.BeginUpdate?
    requires Threat(cfg, Apply(cfg, s, e), c, id) &&
      Lookup(Apply(cfg, s, e).store.orders, id) == Some(s.store.orders[id])
    ensures Threat(cfg, s, c, id)
  {
    hide Apply, Blocked;
    if Caller(e) == Some(c) {
      OwnThreatBefore(cfg, s, e, id, c);
    } else {
      OthersStay(cfg, s, e);
      assert Lookup(Apply(cfg, s, e).calls, c) == Lookup(s.calls, c);
      if Blocked(cfg, s, s.calls[c]) { BlockedStays(cfg, s, e, s.calls[c]); }
    }
  }

  lemma NoThreatStep(cfg: Config, s: State, e: Event, id: Id)
    requires Snapshots(s) && IsSettled(s, id) && !e.BeginUpdate? && forall c :: !Threat(cfg, s, c, id)
    ensures Lookup(Apply(cfg, s, e).store.orders, id) == Some(s.store.orders[id])
    ensures forall c :: !Threat(cfg, Apply(cfg, s, e), c, id)
  {
    hide Apply;
    OnlyWriteBacksChangeOrders(cfg, s, e, id);
    if e.Proceed? && e.c in s.calls && s.calls[e.c].Writing? { assert !Threat(cfg, s, e.c, id); }
    forall c ensures !Threat(cfg, Apply(cfg, s, e), c, id) {
      if Threat(cfg, Apply(cfg, s, e), c, id) { ThreatBefore(cfg, s, e, id, c); }
    }
  }

  lemma {:induction false} NoThreatStays(cfg: Config, events: seq<Event>, more: seq<Event>, id: Id)
    requires IsSettled(Run(cfg, events), id) && NoUpdates(more) && forall c :: !Threat(cfg, Run(cfg, events), c, id)
    ensures Lookup(Run(cfg, events + more).store.orders, id) == Lookup(Run(cfg, events).store.orders, id)
    ensures forall c :: !Threat(cfg, Run(cfg, events + more), c, id)
    decreases |more|
  {
    hide Apply, Threat;
    if more == [] {
      assert events + more == events;
    } else {
      var n := |more| - 1;
      assert more[n] in more && forall e | e in more[..n] :: e in more;
      assert (events + more)[..|events| + n] == events + more[..n];
      NoThreatStays(cfg, events, more[..n], id);
      RunInv(cfg, events + more[..n]);
      NoThreatStep(cfg, Run(cfg, events + more[..n]), more[n], id);
    }
  }

  // ---------- a threat can be carried out ----------

  /** The chain can come to accept a transaction that is not mined yet, or not confirmed yet. */
  lemma PaymentCanArrive(cfg: Config, s: State, text: string, total: real) returns (wait: seq<Event>)
    requires !MinedBad(cfg, s, text, total)
    ensures NoUpdates(wait)
    ensures var r := After(cfg, s, wait); r.store == s.store && r.calls == s.calls && AcceptsTotal(cfg, r, text, total)
  {
    hide After;
    var key := cfg.decode(text);
    var value: nat := if Wei(total, cfg.rate) < 0 then 0 else Wei(total, cfg.rate);
    var tx := ChainTx(false, true, s.latest, Some(cfg.wallet), value);
    var mined := Apply(cfg, s, Mine(key, tx));
    if AcceptsTotal(cfg, s, text, total) {
      wait := [];
      AfterNone(cfg, s);
    } else {
      wait := [Mine(key, tx)] + [NewBlock];
      AfterCons(cfg, s, Mine(key, tx), [NewBlock]);
      AfterOne(cfg, mined, NewBlock);
      OneMore(mined.latest, mined.chain[key].block);
    }
  }

  lemma AfterNone(cfg: Config, s: State)
    ensures After(cfg, s, []) == s
  {
  }

  lemma OneMore(latest: nat, block: nat)
    ensures Confirmations(latest, block) < MIN_CONFIRMATIONS ==> Confirmations(latest + 1, block) >= MIN_CONFIRMATIONS
    ensures latest == block ==> Confirmations(latest, block) < MIN_CONFIRMATIONS
  {
  }

  lemma ThreatCarriedOut(cfg: Config, s: State, c: nat, id: Id) returns (more: seq<Event>)
    requires Threat(cfg, s, c, id) && HashesOwned(s) && OwnersKnown(s)
    ensures NoUpdates(more) && Lookup(After(cfg, s, more).store.orders, id) != Some(s.store.orders[id])
  {
    hide After;
    var call := s.calls[c];
    more := Proceeds(c, 5);
    match call
    case Verifying(_, text, total) =>
      var wait := PaymentCanArrive(cfg, s, text, total);
      var r := After(cfg, s, wait);
      AfterConcat(cfg, s, wait, more);
      FromVerifying(cfg, r, c, 5);
      more := wait + more;
    case UpdateGet(_, _, _) => FromUpdate(cfg, s, c, 5);
    case Reserving(_, _, _, _) => FromReserving(cfg, s, c, 5);
    case CheckingOwner(_, _, _, _) => FromChecking(cfg, s, c, 5);
    case Writing(_, _, _, _) => FromWriting(cfg, s, c, 5);
  }

  /** A paid or failed order can still change, in some continuation of the run without direct status updates, exactly
      when a call already past its check on the order would write another status or hash and is not blocked by the
      reservation of its hash or by an already mined transaction that does not pay. */
  lemma SettledCanChangeIff(cfg: Config, events: seq<Event>, id: Id)
    requires IsSettled(Run(cfg, events), id)
    ensures CanChange(cfg, events, id) <==> exists c :: Threat(cfg, Run(cfg, events), c, id)
  {
    hide Threat, Apply;
    if c :| Threat(cfg, Run(cfg, events), c, id) {
      RunHashesOwned(cfg, events);
      RunOwnersKnown(cfg, events);
      var more := ThreatCarriedOut(cfg, Run(cfg, events), c, id);
      RunConcat(cfg, events, more);
    } else {
      forall more | NoUpdates(more)
        ensures Lookup(Run(cfg, events + more).store.orders, id) == Lookup(Run(cfg, events).store.orders, id)
      {
        NoThreatStays(cfg, events, more, id);
      }
    }
  }

  // ---------- no overlap, no threat ----------

  /** No two settlement calls work on this order at the same time. */
  ghost predicate SerialOn(s: State, id: Id) {
    forall c, d | c in s.calls && d in s.calls && Handles(s.calls[c], id) && Handles(s.calls[d], id) :: c == d
  }

  ghost predicate ChecksHold(s: State, id: Id) {
    forall c | c in s.calls && PastCheck(s.calls[c]) && s.calls[c].id == id ::
      id in s.store.orders && s.store.orders[id].status == Pending
  }

  lemma ChecksHoldStep(cfg: Config, s: State, e: Event, id: Id)
    requires ChecksHold(s, id) && SerialOn(s, id) && Snapshots(s) && !e.BeginUpdate?
    ensures ChecksHold(Apply(cfg, s, e), id)
  {
    hide Apply;
    var r := Apply(cfg, s, e);
    OthersStay(cfg, s, e);
    forall c | c in r.calls && PastCheck(r.calls[c]) && r.calls[c].id == id
      ensures id in r.store.orders && r.store.orders[id].status == Pending
    {
      if Caller(e) == Some(c) {
        PastCheckMoves(cfg, s, e, c);
      } else {
        assert Lookup(r.calls, c) == Lookup(s.calls, c);
        OnlyWriteBacksChangeOrders(cfg, s, e, id);
      }
    }
  }

  lemma {:induction false} SerialChecksHold(cfg: Config, events: seq<Event>, n: nat, id: Id)
    requires n <= |events| && NoUpdates(events[..n]) && forall i | 0 <= i < n :: SerialOn(At(cfg, events, i), id)
    ensures ChecksHold(At(cfg, events, n), id)
  {
    hide Apply;
    if n == 0 {
    } else {
      assert events[..n][n - 1] in events[..n] && forall e | e in events[..n - 1] :: e in events[..n];
      SerialChecksHold(cfg, events, n - 1, id);
      AtNext(cfg, events, n - 1);
      RunInv(cfg, events[..n - 1]);
      ChecksHoldStep(cfg, At(cfg, events, n - 1), events[n - 1], id);
    }
  }

  /** If settlement calls on one order did not overlap until it was paid or failed, it never changes again, whatever
      overlaps later and whatever happens to other orders. */
  lemma SettledIsFinalWhenSerial(cfg: Config, events: seq<Event>, m: nat, n: nat, id: Id)
    requires m <= n <= |events| && NoUpdates(events[..n])
    requires forall i | 0 <= i < m :: SerialOn(At(cfg, events, i), id)
    requires IsSettled(At(cfg, events, m), id)
    ensures Lookup(At(cfg, events, n).store.orders, id) == Some(At(cfg, events, m).store.orders[id])
  {
    hide Apply;
    assert forall e | e in events[..m] :: e in events[..n];
    SerialChecksHold(cfg, events, m, id);
    assert forall c :: !Threat(cfg, At(cfg, events, m), c, id);
    assert events[..n] == events[..m] + events[m..n];
    assert forall e | e in events[m..n] :: e in events[..n];
    NoThreatStays(cfg, events[..m], events[m..n], id);
  }
}
