/** Settling orders by on-chain payment: hash ownership, verified payment, finality. */
module Settlement {
  import opened Model
  import opened Payment
  import opened Redis
  import opened Linearize
  import opened Indexes

  // ---------- a hash belongs to one order for ever ----------

  /** A reservation, once made, is never moved or dropped by any event. */
  lemma ReservationStep(cfg: Config, s: State, e: Event, h: string)
    requires h in s.store.txOwner
    ensures Lookup(Apply(cfg, s, e).store.txOwner, h) == Some(s.store.txOwner[h])
  {
    hide Apply, Step;
    EventEffect(cfg, s, e);
    if e.Proceed? && e.c in s.calls { StepKeepsOwners(cfg, s, e.c, s.calls[e.c], h); }
  }

  lemma StepKeepsOwners(cfg: Config, s: State, c: nat, call: Call, h: string)
    requires h in s.store.txOwner
    ensures Lookup(Step(cfg, s, c, call).store.txOwner, h) == Some(s.store.txOwner[h])
  {
  }

  lemma {:induction false} ReservationIsPermanent(cfg: Config, events: seq<Event>, i: nat, j: nat, h: string)
    requires i <= j <= |events| && h in At(cfg, events, i).store.txOwner
    ensures Lookup(At(cfg, events, j).store.txOwner, h) == Some(At(cfg, events, i).store.txOwner[h])
  {
    hide Apply;
    if i == j {
    } else {
      ReservationIsPermanent(cfg, events, i, j - 1, h);
      AtNext(cfg, events, j - 1);
      ReservationStep(cfg, At(cfg, events, j - 1), events[j - 1], h);
    }
  }

  predicate Owned(store: Store, hash: Option<string>, id: Id) {
    HasText(hash) ==> Lookup(store.txOwner, hash.value) == Some(id)
  }

  ghost predicate HashesOwned(s: State) {
    && (forall id | id in s.store.orders :: Owned(s.store, s.store.orders[id].txHash, id))
    && (forall c | c in s.calls && s.calls[c].Writing? :: Owned(s.store, s.calls[c].hash, s.calls[c].id))
  }

  lemma OwnedStays(cfg: Config, s: State, e: Event, hash: Option<string>, id: Id)
    requires Owned(s.store, hash, id)
    ensures Owned(Apply(cfg, s, e).store, hash, id)
  {
    hide Apply;
    if HasText(hash) { ReservationStep(cfg, s, e, hash.value); }
  }

  /** A call reaches its write only with the reservation in its order's name. */
  lemma WritingMoves(cfg: Config, s: State, e: Event, c: nat)
    requires Caller(e) == Some(c) && c in Apply(cfg, s, e).calls && Apply(cfg, s, e).calls[c].Writing?
    requires c in s.calls && s.calls[c].Writing? ==> Owned(s.store, s.calls[c].hash, s.calls[c].id)
    ensures var r := Apply(cfg, s, e); Owned(r.store, r.calls[c].hash, r.calls[c].id)
  {
    hide Apply, Step;
    EventEffect(cfg, s, e);
    if e.Proceed? && e.c in s.calls { StepOwns(cfg, s, c, s.calls[c]); }
  }

  lemma StepOwns(cfg: Config, s: State, c: nat, call: Call)
    requires c in s.calls && s.calls[c] == call && Step(cfg, s, c, call).calls[c].Writing?
    ensures var r := Step(cfg, s, c, call); Owned(r.store, r.calls[c].hash, r.calls[c].id)
  {
  }

  lemma HashesOwnedStep(cfg: Config, s: State, e: Event)
    requires HashesOwned(s)
    ensures HashesOwned(Apply(cfg, s, e))
  {
    hide Apply;
    var r := Apply(cfg, s, e);
    OthersStay(cfg, s, e);
    OrdersEffect(cfg, s, e);
    forall id | id in r.store.orders ensures Owned(r.store, r.store.orders[id].txHash, id) {
      if id in s.store.orders { OwnedStays(cfg, s, e, s.store.orders[id].txHash, id); }
      if e.Proceed? && e.c in s.calls && s.calls[e.c].Writing? {
        OwnedStays(cfg, s, e, s.calls[e.c].hash, s.calls[e.c].id);
      }
    }
    forall c | c in r.calls && r.calls[c].Writing? ensures Owned(r.store, r.calls[c].hash, r.calls[c].id) {
      if Caller(e) == Some(c) { WritingMoves(cfg, s, e, c); }
      else { assert Lookup(r.calls, c) == Lookup(s.calls, c); OwnedStays(cfg, s, e, s.calls[c].hash, s.calls[c].id); }
    }
  }

  lemma {:induction false} RunHashesOwned(cfg: Config, events: seq<Event>)
    ensures HashesOwned(Run(cfg, events))
  {
    hide Apply;
    if events == [] {
    } else {
      RunHashesOwned(cfg, events[..|events| - 1]);
      HashesOwnedStep(cfg, Run(cfg, events[..|events| - 1]), events[|events| - 1]);
    }
  }

  ghost predicate Carries(store: Store, id: Id, h: string) {
    id in store.orders && store.orders[id].txHash == Some(h)
  }

  /** Over the whole history of any run, with crashes at any point, a non-empty hash is recorded on one order only. */
  lemma HashNeverShared(cfg: Config, events: seq<Event>, i: nat, j: nat, p: Id, q: Id, h: string)
    requires i <= |events| && j <= |events| && h != ""
    requires Carries(At(cfg, events, i).store, p, h) && Carries(At(cfg, events, j).store, q, h)
    ensures p == q
  {
    hide Apply;
    RunHashesOwned(cfg, events[..i]);
    RunHashesOwned(cfg, events[..j]);
    assert Owned(At(cfg, events, i).store, Some(h), p) && Owned(At(cfg, events, j).store, Some(h), q);
    if i <= j { ReservationIsPermanent(cfg, events, i, j, h); } else { ReservationIsPermanent(cfg, events, j, i, h); }
  }

  /** A call reserves a hash text only, and checks the owner only after it found the text reserved. */
  predicate OwnerKnown(store: Store, call: Call) {
    && (call.Reserving? || call.CheckingOwner? ==> call.text != "")
    && (call.CheckingOwner? ==> call.text in store.txOwner)
  }

  ghost predicate OwnersKnown(s: State) {
    forall c | c in s.calls :: OwnerKnown(s.store, s.calls[c])
  }

  lemma CheckingMoves(cfg: Config, s: State, e: Event, c: nat)
    requires Caller(e) == Some(c) && c in Apply(cfg, s, e).calls
    requires c in s.calls ==> OwnerKnown(s.store, s.calls[c])
    ensures OwnerKnown(s.store, Apply(cfg, s, e).calls[c])
  {
    hide Apply, Step;
    EventEffect(cfg, s, e);
    if e.Proceed? && e.c in s.calls { StepChecking(cfg, s, c, s.calls[c]); }
  }

  lemma StepChecking(cfg: Config, s: State, c: nat, call: Call)
    requires c in s.calls && s.calls[c] == call && OwnerKnown(s.store, call)
    ensures OwnerKnown(s.store, Step(cfg, s, c, call).calls[c])
  {
  }

  lemma {:induction false} RunOwnersKnown(cfg: Config, events: seq<Event>)
    ensures OwnersKnown(Run(cfg, events))
  {
    hide Apply;
    if events == [] {
    } else {
      var n := |events| - 1;
      var s, e, r := Run(cfg, events[..n]), events[n], Run(cfg, events);
      RunOwnersKnown(cfg, events[..n]);
      OthersStay(cfg, s, e);
      forall c | c in r.calls ensures OwnerKnown(r.store, r.calls[c]) {
        if Caller(e) == Some(c) {
          CheckingMoves(cfg, s, e, c);
        } else {
          assert Lookup(r.calls, c) == Lookup(s.calls, c);
        }
        if r.calls[c].CheckingOwner? { ReservationStep(cfg, s, e, r.calls[c].text); }
      }
    }
  }

  /** A payment is refused as reused exactly when its hash is reserved for another order, now and at every later
      instant. */
  lemma ReuseRefusalIsFinal(cfg: Config, events: seq<Event>, n: nat, c: nat)
    requires n <= |events| && c in At(cfg, events, n).calls && At(cfg, events, n).calls[c].CheckingOwner?
    ensures var s := At(cfg, events, n); var call := s.calls[c];
      && call.text != "" && call.text in s.store.txOwner
      && (CheckOwner(s, c, call).calls[c] == Finished(HashReused) <==> s.store.txOwner[call.text] != call.id)
      && (forall m | n <= m <= |events| ::
        Lookup(At(cfg, events, m).store.txOwner, call.text) == Some(s.store.txOwner[call.text]))
  {
    hide Apply;
    RunOwnersKnown(cfg, events[..n]);
    var text := At(cfg, events, n).calls[c].text;
    forall m | n <= m <= |events|
      ensures Lookup(At(cfg, events, m).store.txOwner, text) == Some(At(cfg, events, n).store.txOwner[text])
    {
      ReservationIsPermanent(cfg, events, n, m, text);
    }
  }

  // ---------- paid implies verified ----------

  ghost predicate AskedToVerify(events: seq<Event>, id: Id, text: string) {
    exists c :: BeginVerify(c, id, text) in events
  }

  predicate AcceptsTotal(cfg: Config, s: State, text: string, total: real) {
    VerifyPayment(Lookup(s.chain, cfg.decode(text)), s.latest, cfg.wallet, Wei(total, cfg.rate),
      MIN_CONFIRMATIONS).Accepted?
  }

  /** At this instant every check of the payment passes, against the stored total. */
  predicate Accepts(cfg: Config, s: State, id: Id, text: string) {
    id in s.store.orders && AcceptsTotal(cfg, s, text, s.store.orders[id].total)
  }

  /** Somebody asked to verify the order with this text, and at an instant since then all checks passed. */
  ghost predicate WasVerified(cfg: Config, events: seq<Event>, id: Id, text: string) {
    && text != "" && AskedToVerify(events, id, text)
    && exists k: nat | k < |events| :: AcceptedAt(cfg, events, k, id, text)
  }

  ghost predicate AcceptedAt(cfg: Config, events: seq<Event>, k: nat, id: Id, text: string)
    requires k <= |events|
  {
    AskedToVerify(events[..k], id, text) && Accepts(cfg, At(cfg, events, k), id, text)
  }

  lemma AskedStays(events: seq<Event>, e: Event, id: Id, text: string)
    requires AskedToVerify(events, id, text)
    ensures AskedToVerify(events + [e], id, text)
  {
    var c :| BeginVerify(c, id, text) in events;
    assert BeginVerify(c, id, text) in events + [e];
  }

  lemma AtPrefix(cfg: Config, events: seq<Event>, e: Event, k: nat)
    requires k <= |events|
    ensures (events + [e])[..k] == events[..k] && At(cfg, events + [e], k) == At(cfg, events, k)
  {
    assert (events + [e])[..k] == events[..k];
  }

  lemma WasVerifiedStays(cfg: Config, events: seq<Event>, e: Event, id: Id, text: string)
    requires WasVerified(cfg, events, id, text)
    ensures WasVerified(cfg, events + [e], id, text)
  {
    hide Accepts, At;
    AskedStays(events, e, id, text);
    var k: nat :| k < |events| && AcceptedAt(cfg, events, k, id, text);
    AtPrefix(cfg, events, e, k);
    assert AcceptedAt(cfg, events + [e], k, id, text);
  }

  lemma VerifiedNow(cfg: Config, events: seq<Event>, e: Event, id: Id, text: string)
    requires text != "" && AskedToVerify(events, id, text) && Accepts(cfg, Run(cfg, events), id, text)
    ensures WasVerified(cfg, events + [e], id, text)
  {
    hide Accepts;
    AskedStays(events, e, id, text);
    assert (events + [e])[..|events|] == events;
    assert AcceptedAt(cfg, events + [e], |events|, id, text);
  }

  /** The order and hash that an update to paid is about to record. */
  function Pays(call: Call): Option<(Id, Option<string>)> {
    match call
    case UpdateGet(id, Paid, hash) => Some((id, hash))
    case Reserving(id, Paid, text, _) => Some((id, Some(text)))
    case CheckingOwner(id, Paid, text, _) => Some((id, Some(text)))
    case Writing(id, Paid, hash, _) => Some((id, hash))
    case _ => None
  }

  ghost predicate HashVerified(cfg: Config, events: seq<Event>, hash: Option<string>, id: Id) {
    hash.Some? && WasVerified(cfg, events, id, hash.value)
  }

  ghost predicate CallVerified(cfg: Config, events: seq<Event>, s: State, call: Call) {
    && (call.VerifyGet? || call.Verifying? ==> call.text != "" && AskedToVerify(events, call.id, call.text))
    && (call.Verifying? ==> call.id in s.store.orders && s.store.orders[call.id].total == call.total)
    && (Pays(call).Some? ==> HashVerified(cfg, events, Pays(call).value.1, Pays(call).value.0))
  }

  ghost predicate Verified(cfg: Config, events: seq<Event>, s: State) {
    && (forall id | id in s.store.orders && s.store.orders[id].status == Paid ::
          HashVerified(cfg, events, s.store.orders[id].txHash, id))
    && (forall c | c in s.calls :: CallVerified(cfg, events, s, s.calls[c]))
  }

  /** Orders are marked paid through payment verification only. */
  predicate PaysByVerify(e: Event) {
    e.BeginUpdate? ==> e.status != Paid
  }

  lemma CallVerifiedStays(cfg: Config, events: seq<Event>, s: State, e: Event, call: Call)
    requires CallVerified(cfg, events, s, call) && Snapshots(s)
    ensures CallVerified(cfg, events + [e], Apply(cfg, s, e), call)
  {
    hide Apply, WasVerified, AskedToVerify, Pays;
    if call.VerifyGet? || call.Verifying? { AskedStays(events, e, call.id, call.text); }
    if call.Verifying? { OrdersKeepCore(cfg, s, e, call.id); }
    if Pays(call).Some? { WasVerifiedStays(cfg, events, e, Pays(call).value.0, Pays(call).value.1.value); }
  }

  /** A call comes to pay by having paid for, or by the passed checks of its own verification. */
  lemma StepPays(cfg: Config, s: State, c: nat, call: Call)
    requires c in s.calls && s.calls[c] == call
    ensures var to := Step(cfg, s, c, call).calls[c];
      && (Pays(to).Some? ==>
            || Pays(call) == Pays(to)
            || (call.Verifying? && Pays(to) == Some((call.id, Some(call.text))) &&
              AcceptsTotal(cfg, s, call.text, call.total)))
      && !to.VerifyGet?
      && (to.Verifying? ==>
            && call.VerifyGet? && call.id == to.id && call.text == to.text
            && to.id in s.store.orders && to.total == s.store.orders[to.id].total
            && Step(cfg, s, c, call).store == s.store)
  {
    hide AcceptsTotal;
    if call.Verifying? { CheckPays(cfg, s, c, call); }
  }

  lemma CheckPays(cfg: Config, s: State, c: nat, call: Call)
    requires call.Verifying?
    ensures Step(cfg, s, c, call) ==
      if AcceptsTotal(cfg, s, call.text, call.total) then Move(s, c, UpdateGet(call.id, Paid, Some(call.text)))
      else Move(s, c, Finished(Unpaid))
  {
  }

  lemma CallMovesVerified(cfg: Config, events: seq<Event>, s: State, e: Event, c: nat)
    requires s == Run(cfg, events) && Caller(e) == Some(c) && c in Apply(cfg, s, e).calls && PaysByVerify(e)
    requires c in s.calls ==> CallVerified(cfg, events, s, s.calls[c])
    requires c in s.calls ==> CallVerified(cfg, events + [e], Apply(cfg, s, e), s.calls[c])
    ensures CallVerified(cfg, events + [e], Apply(cfg, s, e), Apply(cfg, s, e).calls[c])
  {
    hide WasVerified, Apply, Step, AcceptsTotal;
    EventEffect(cfg, s, e);
    if e.Proceed? && c in s.calls {
      var call := s.calls[c];
      StepPays(cfg, s, c, call);
      var to := Step(cfg, s, c, call).calls[c];
      if call.Verifying? && Pays(to) == Some((call.id, Some(call.text))) &&
          AcceptsTotal(cfg, s, call.text, call.total) {
        VerifiedNow(cfg, events, e, call.id, call.text);
      }
    } else {
      assert e in events + [e];
    }
  }

  lemma VerifiedStep(cfg: Config, events: seq<Event>, e: Event)
    requires var s := Run(cfg, events); Verified(cfg, events, s) && Snapshots(s) && PaysByVerify(e)
    ensures Verified(cfg, events + [e], Apply(cfg, Run(cfg, events), e))
  {
    hide Apply, WasVerified;
    var s := Run(cfg, events);
    var r := Apply(cfg, s, e);
    OthersStay(cfg, s, e);
    OrdersEffect(cfg, s, e);
    forall id | id in r.store.orders && r.store.orders[id].status == Paid
      ensures HashVerified(cfg, events + [e], r.store.orders[id].txHash, id)
    {
      if e.Proceed? && e.c in s.calls && s.calls[e.c].Writing? && s.calls[e.c].id == id && s.calls[e.c].status == Paid {
        assert CallVerified(cfg, events, s, s.calls[e.c]);
        WasVerifiedStays(cfg, events, e, id, s.calls[e.c].hash.value);
      }
      if id in s.store.orders && s.store.orders[id].status == Paid {
        WasVerifiedStays(cfg, events, e, id, s.store.orders[id].txHash.value);
      }
    }
    forall c | c in r.calls ensures CallVerified(cfg, events + [e], r, r.calls[c]) {
      if c in s.calls { CallVerifiedStays(cfg, events, s, e, s.calls[c]); }
      if Caller(e) == Some(c) {
        CallMovesVerified(cfg, events, s, e, c);
      } else {
        assert Lookup(r.calls, c) == Lookup(s.calls, c);
      }
    }
  }

  lemma {:induction false} RunVerified(cfg: Config, events: seq<Event>)
    requires forall e | e in events :: PaysByVerify(e)
    ensures Verified(cfg, events, Run(cfg, events))
  {
    hide Apply, WasVerified;
    if events == [] {
    } else {
      var n := |events| - 1;
      assert forall e | e in events[..n] :: e in events;
      assert events[n] in events;
      RunVerified(cfg, events[..n]);
      RunInv(cfg, events[..n]);
      VerifiedStep(cfg, events[..n], events[n]);
      assert events == events[..n] + [events[n]];
    }
  }

  // ---------- a verified payment stays one ----------

  /** The chain never forgets or alters a transaction that is no longer pending. */
  lemma ChainGrows(cfg: Config, s: State, e: Event, k: nat)
    requires k in s.chain && !s.chain[k].pending
    ensures Lookup(Apply(cfg, s, e).chain, k) == Some(s.chain[k])
  {
    hide Apply, Step;
    EventEffect(cfg, s, e);
    if e.Proceed? && e.c in s.calls { StepKeepsChain(cfg, s, e.c, s.calls[e.c]); }
  }

  lemma StepKeepsChain(cfg: Config, s: State, c: nat, call: Call)
    ensures Step(cfg, s, c, call).chain == s.chain && Step(cfg, s, c, call).latest == s.latest
  {
  }

  lemma TipGrows(cfg: Config, s: State, e: Event)
    ensures Apply(cfg, s, e).latest >= s.latest
  {
    hide Apply, Step;
    EventEffect(cfg, s, e);
    if e.Proceed? && e.c in s.calls { StepKeepsChain(cfg, s, e.c, s.calls[e.c]); }
  }

  lemma {:induction false} LaterInstants(cfg: Config, events: seq<Event>, k: nat, n: nat, id: Id, tx: nat)
    requires k <= n <= |events| && id in At(cfg, events, k).store.orders
    requires tx in At(cfg, events, k).chain && !At(cfg, events, k).chain[tx].pending
    ensures var s, r := At(cfg, events, k), At(cfg, events, n);
      && id in r.store.orders && SameCore(s.store.orders[id], r.store.orders[id])
      && Lookup(r.chain, tx) == Some(s.chain[tx]) && r.latest >= s.latest
  {
    hide Apply;
    if k == n {
    } else {
      LaterInstants(cfg, events, k, n - 1, id, tx);
      AtNext(cfg, events, n - 1);
      RunInv(cfg, events[..n - 1]);
      OrdersKeepCore(cfg, At(cfg, events, n - 1), events[n - 1], id);
      ChainGrows(cfg, At(cfg, events, n - 1), events[n - 1], tx);
      TipGrows(cfg, At(cfg, events, n - 1), events[n - 1]);
    }
  }

  /** The transaction the text names is final, pays the shop, and covers the amount due for `total`. */
  predicate PaidFor(cfg: Config, chain: map<nat, ChainTx>, text: string, total: real) {
    && text != "" && cfg.decode(text) in chain
    && var tx := chain[cfg.decode(text)];
       !tx.pending && tx.success && tx.to.Some? && EqualFold(tx.to.value, cfg.wallet) &&
         tx.value >= Wei(total, cfg.rate)
  }

  lemma VerifiedPays(cfg: Config, events: seq<Event>, id: Id, text: string)
    requires WasVerified(cfg, events, id, text)
    ensures var s := Run(cfg, events); id in s.store.orders && PaidFor(cfg, s.chain, text, s.store.orders[id].total)
  {
    hide Apply;
    var k: nat :| k < |events| && AcceptedAt(cfg, events, k, id, text);
    LaterInstants(cfg, events, k, |events|, id, cfg.decode(text));
    assert events[..|events|] == events;
  }

  /** In every state of every interleaving of checkouts, verifications and cancellations, somebody asked to verify each
      paid order with the text it carries, all checks passed at some instant since, confirmations included, and the
      text still names a successful transaction to the shop's own address worth at least the amount due for the stored
      total. */
  lemma PaidImpliesVerified(cfg: Config, events: seq<Event>, id: Id)
    requires forall e | e in events :: PaysByVerify(e)
    requires id in Run(cfg, events).store.orders && Run(cfg, events).store.orders[id].status == Paid
    ensures var s := Run(cfg, events); var o := s.store.orders[id];
      && o.txHash.Some? && WasVerified(cfg, events, id, o.txHash.value)
      && PaidFor(cfg, s.chain, o.txHash.value, o.total)
      && forall address | Spells(cfg.wallet, address) :: PaidTo(cfg, s.chain, o.txHash.value, address)
  {
    hide Apply, WasVerified, PaidFor;
    RunVerified(cfg, events);
    var s := Run(cfg, events);
    var o := s.store.orders[id];
    assert HashVerified(cfg, events, o.txHash, id);
    VerifiedPays(cfg, events, id, o.txHash.value);
    forall address | Spells(cfg.wallet, address) ensures PaidTo(cfg, s.chain, o.txHash.value, address) {
      PaidToShop(cfg, s.chain, o.txHash.value, o.total, address);
    }
  }

  /** The money went to this address, letter by letter in whatever case. */
  predicate PaidTo(cfg: Config, chain: map<nat, ChainTx>, text: string, address: seq<int>) {
    && cfg.decode(text) in chain && chain[cfg.decode(text)].to.Some?
    && Spells(chain[cfg.decode(text)].to.value, address)
  }

  lemma PaidToShop(cfg: Config, chain: map<nat, ChainTx>, text: string, total: real, address: seq<int>)
    requires PaidFor(cfg, chain, text, total) && Spells(cfg.wallet, address)
    ensures PaidTo(cfg, chain, text, address)
  {
    FoldedSpells(chain[cfg.decode(text)].to.value, cfg.wallet, address);
  }

  /** Transactions are mined at or below the tip. */
  ghost predicate MinedBelowTip(cfg: Config, events: seq<Event>) {
    forall i: nat | i < |events| && events[i].Mine? :: events[i].tx.block <= At(cfg, events, i).latest
  }

  lemma {:induction false} BlocksBelowTip(cfg: Config, events: seq<Event>, n: nat)
    requires n <= |events| && MinedBelowTip(cfg, events)
    ensures forall k | k in At(cfg, events, n).chain :: At(cfg, events, n).chain[k].block <= At(cfg, events, n).latest
  {
    hide Apply;
    if n == 0 {
    } else {
      BlocksBelowTip(cfg, events, n - 1);
      AtNext(cfg, events, n - 1);
      ChainMoves(cfg, At(cfg, events, n - 1), events[n - 1]);
      TipGrows(cfg, At(cfg, events, n - 1), events[n - 1]);
    }
  }

  lemma ChainMoves(cfg: Config, s: State, e: Event)
    ensures Apply(cfg, s, e).chain == s.chain || (e.Mine? && Apply(cfg, s, e).chain == s.chain[e.key := e.tx])
  {
    hide Apply, Step;
    EventEffect(cfg, s, e);
    if e.Proceed? && e.c in s.calls { StepKeepsChain(cfg, s, e.c, s.calls[e.c]); }
  }

  /** The tip read by the check was not behind the block of the transaction. */
  ghost predicate TipCoversBlock(cfg: Config, s: State, text: string) {
    cfg.decode(text) in s.chain && s.chain[cfg.decode(text)].block <= s.latest
  }

  /** In every run, the transaction of a paid order is confirmed, now and for ever after, unless each time its checks
      passed the tip lay behind its block. */
  lemma PaidIsConfirmed(cfg: Config, events: seq<Event>, id: Id)
    requires forall e | e in events :: PaysByVerify(e)
    requires id in Run(cfg, events).store.orders && Run(cfg, events).store.orders[id].status == Paid
    ensures var s := Run(cfg, events); var hash := s.store.orders[id].txHash;
      && hash.Some? && cfg.decode(hash.value) in s.chain
      && (|| s.chain[cfg.decode(hash.value)].block + 1 <= s.latest
          || forall k: nat | k < |events| && AcceptedAt(cfg, events, k, id, hash.value) ::
               !TipCoversBlock(cfg, At(cfg, events, k), hash.value))
  {
    hide Apply;
    PaidImpliesVerified(cfg, events, id);
    var text := Run(cfg, events).store.orders[id].txHash.value;
    if k: nat :| k < |events| && AcceptedAt(cfg, events, k, id, text) && TipCoversBlock(cfg, At(cfg, events, k), text) {
      LaterInstants(cfg, events, k, |events|, id, cfg.decode(text));
      assert events[..|events|] == events;
      ConfirmedBelow(At(cfg, events, k).latest, At(cfg, events, k).chain[cfg.decode(text)].block);
    }
  }

  /** So when transactions are mined at or below the tip, every paid order is confirmed for ever. */
  lemma BelowTipIsConfirmed(cfg: Config, events: seq<Event>, id: Id)
    requires (forall e | e in events :: PaysByVerify(e)) && MinedBelowTip(cfg, events)
    requires id in Run(cfg, events).store.orders && Run(cfg, events).store.orders[id].status == Paid
    ensures var s := Run(cfg, events); var hash := s.store.orders[id].txHash;
      hash.Some? && cfg.decode(hash.value) in s.chain &&
        s.chain[cfg.decode(hash.value)].block + 1 <= s.latest
  {
    hide Apply;
    PaidImpliesVerified(cfg, events, id);
    PaidIsConfirmed(cfg, events, id);
    var text := Run(cfg, events).store.orders[id].txHash.value;
    var k: nat :| k < |events| && AcceptedAt(cfg, events, k, id, text);
    BlocksBelowTip(cfg, events, k);
    assert TipCoversBlock(cfg, At(cfg, events, k), text);
  }

  /** Behind the tip, the wrapping count of confirmations is never more than the true one. */
  lemma ConfirmedBelow(latest: nat, block: nat)
    requires block <= latest
    ensures Confirmations(latest, block) <= latest - block
  {
  }

  // ---------- cancellation ----------

  ghost predicate AskedToCancel(events: seq<Event>, id: Id, wallet: string) {
    exists c :: BeginCancel(c, id, wallet) in events
  }

  /** The wallet of the order itself asked for its cancellation. */
  ghost predicate OwnerCancelled(events: seq<Event>, store: Store, id: Id) {
    id in store.orders && AskedToCancel(events, id, store.orders[id].wallet)
  }

  ghost predicate CallCancels(events: seq<Event>, store: Store, call: Call) {
    && (call.CancelGet? ==> AskedToCancel(events, call.id, call.wallet))
    && (IsUpdate(call) && call.status == Failed ==> OwnerCancelled(events, store, call.id))
  }

  lemma OwnerCancelledStays(cfg: Config, events: seq<Event>, s: State, e: Event, id: Id)
    requires OwnerCancelled(events, s.store, id) && Snapshots(s)
    ensures OwnerCancelled(events + [e], Apply(cfg, s, e).store, id)
  {
    hide Apply;
    OrdersKeepCore(cfg, s, e, id);
    var c :| BeginCancel(c, id, s.store.orders[id].wallet) in events;
    assert BeginCancel(c, id, s.store.orders[id].wallet) in events + [e];
  }

  lemma CancelMoves(cfg: Config, s: State, e: Event, c: nat)
    requires Caller(e) == Some(c) && c in Apply(cfg, s, e).calls && !e.BeginUpdate?
    ensures var to := Apply(cfg, s, e).calls[c];
      && (to.CancelGet? ==> (c in s.calls && to == s.calls[c]) || e == BeginCancel(c, to.id, to.wallet))
      && (IsUpdate(to) && to.status == Failed ==>
            && c in s.calls
            && (|| (IsUpdate(s.calls[c]) && s.calls[c].status == Failed && s.calls[c].id == to.id)
                || (s.calls[c].CancelGet? && s.calls[c].id == to.id && to.id in s.store.orders &&
                    s.store.orders[to.id].wallet == s.calls[c].wallet)))
  {
    hide Apply, Step;
    EventEffect(cfg, s, e);
    if e.Proceed? && e.c in s.calls { StepCancels(cfg, s, c, s.calls[c]); }
  }

  lemma StepCancels(cfg: Config, s: State, c: nat, call: Call)
    requires c in s.calls && s.calls[c] == call
    ensures var to := Step(cfg, s, c, call).calls[c];
      && !to.CancelGet?
      && (IsUpdate(to) && to.status == Failed ==>
            || (IsUpdate(call) && call.status == Failed && call.id == to.id)
            || (call.CancelGet? && call.id == to.id && to.id in s.store.orders &&
              s.store.orders[to.id].wallet == call.wallet))
  {
  }

  lemma CallCancelsStep(cfg: Config, events: seq<Event>, s: State, e: Event, c: nat)
    requires Snapshots(s) && !e.BeginUpdate? && c in Apply(cfg, s, e).calls
    requires c in s.calls ==> CallCancels(events, s.store, s.calls[c])
    ensures CallCancels(events + [e], Apply(cfg, s, e).store, Apply(cfg, s, e).calls[c])
  {
    hide Apply;
    OthersStay(cfg, s, e);
    var to := Apply(cfg, s, e).calls[c];
    if Caller(e) == Some(c) { CancelMoves(cfg, s, e, c); } else { assert Lookup(s.calls, c) == Some(to); }
    if to.CancelGet? {
      if e == BeginCancel(c, to.id, to.wallet) {
        assert e in events + [e];
      } else {
        var d :| BeginCancel(d, to.id, to.wallet) in events;
        assert BeginCancel(d, to.id, to.wallet) in events + [e];
      }
    }
    if IsUpdate(to) && to.status == Failed {
      assert OwnerCancelled(events, s.store, to.id);
      OwnerCancelledStays(cfg, events, s, e, to.id);
    }
  }

  ghost predicate AllCancelled(events: seq<Event>, s: State) {
    && (forall c | c in s.calls :: CallCancels(events, s.store, s.calls[c]))
    && (forall id | id in s.store.orders && s.store.orders[id].status == Failed :: OwnerCancelled(events, s.store, id))
  }

  lemma AllCancelledStep(cfg: Config, events: seq<Event>, s: State, e: Event)
    requires AllCancelled(events, s) && Snapshots(s) && !e.BeginUpdate?
    ensures AllCancelled(events + [e], Apply(cfg, s, e))
  {
    hide Apply;
    var r := Apply(cfg, s, e);
    forall c | c in r.calls ensures CallCancels(events + [e], r.store, r.calls[c]) {
      CallCancelsStep(cfg, events, s, e, c);
    }
    OrdersEffect(cfg, s, e);
    forall id | id in r.store.orders && r.store.orders[id].status == Failed
      ensures OwnerCancelled(events + [e], r.store, id)
    {
      if e.Proceed? && e.c in s.calls && s.calls[e.c].Writing? { assert CallCancels(events, s.store, s.calls[e.c]); }
      assert OwnerCancelled(events, s.store, id);
      OwnerCancelledStays(cfg, events, s, e, id);
    }
  }

  /** In every interleaving, an order is marked failed only because its own wallet asked for it. */
  lemma {:induction false} OnlyOwnersCancel(cfg: Config, events: seq<Event>)
    requires forall e | e in events :: !e.BeginUpdate?
    ensures AllCancelled(events, Run(cfg, events))
  {
    hide Apply;
    if events == [] {
    } else {
      var n := |events| - 1;
      assert events == events[..n] + [events[n]] && events[n] in events;
      OnlyOwnersCancel(cfg, events[..n]);
      RunInv(cfg, events[..n]);
      AllCancelledStep(cfg, events[..n], Run(cfg, events[..n]), events[n]);
    }
  }
}
