/** One on-chain payment, one order: when the promise holds. */
module Payments {
  import opened Model
  import opened Redis
  import opened Settlement
  import opened Runs
  import opened Races

  predicate IsPaid(store: Store, id: Id) {
    id in store.orders && store.orders[id].status == Paid && store.orders[id].txHash.Some?
  }

  /** The transaction on the chain that settled a paid order. */
  function OnChain(cfg: Config, store: Store, id: Id): nat
    requires IsPaid(store, id)
  {
    cfg.decode(store.orders[id].txHash.value)
  }

  /** Over the whole history of a run, different orders are paid by different transactions, even when one of them has
      lost its payment before the other is paid. */
  ghost predicate EachOrderItsOwnPayment(cfg: Config, events: seq<Event>) {
    forall i: nat, j: nat, p, q | i <= |events| && j <= |events| && p != q
      && IsPaid(At(cfg, events, i).store, p) && IsPaid(At(cfg, events, j).store, q) ::
      OnChain(cfg, At(cfg, events, i).store, p) != OnChain(cfg, At(cfg, events, j).store, q)
  }

  /** Orders are paid by verification requests only, and their hash texts come from `texts`. */
  ghost predicate PaysWithin(events: seq<Event>, texts: iset<string>) {
    forall e | e in events :: PaysByVerify(e) && (e.BeginVerify? && e.text != "" ==> e.text in texts)
  }

  /** Different texts name different transactions. */
  ghost predicate Canonical(cfg: Config, texts: iset<string>) {
    forall t, u | t in texts && u in texts && t != u :: cfg.decode(t) != cfg.decode(u)
  }

  lemma CanonicalIsEnough(cfg: Config, texts: iset<string>, events: seq<Event>)
    requires Canonical(cfg, texts) && PaysWithin(events, texts)
    ensures EachOrderItsOwnPayment(cfg, events)
  {
    hide At, OnChain;
    forall i: nat, j: nat, p, q | i <= |events| && j <= |events| && p != q
      && IsPaid(At(cfg, events, i).store, p) && IsPaid(At(cfg, events, j).store, q)
      ensures OnChain(cfg, At(cfg, events, i).store, p) != OnChain(cfg, At(cfg, events, j).store, q)
    {
      PaidTwice(cfg, texts, events, i, j, p, q);
    }
  }

  lemma PaidTwice(cfg: Config, texts: iset<string>, events: seq<Event>, i: nat, j: nat, p: Id, q: Id)
    requires Canonical(cfg, texts) && PaysWithin(events, texts) && i <= |events| && j <= |events| && p != q
    requires IsPaid(At(cfg, events, i).store, p) && IsPaid(At(cfg, events, j).store, q)
    ensures OnChain(cfg, At(cfg, events, i).store, p) != OnChain(cfg, At(cfg, events, j).store, q)
  {
    hide Run;
    PaidTextIn(cfg, texts, events, i, p);
    PaidTextIn(cfg, texts, events, j, q);
    var t := At(cfg, events, i).store.orders[p].txHash.value;
    if t == At(cfg, events, j).store.orders[q].txHash.value { HashNeverShared(cfg, events, i, j, p, q, t); }
  }

  lemma PaidTextIn(cfg: Config, texts: iset<string>, events: seq<Event>, i: nat, p: Id)
    requires PaysWithin(events, texts) && i <= |events| && IsPaid(At(cfg, events, i).store, p)
    ensures var t := At(cfg, events, i).store.orders[p].txHash.value; t != "" && t in texts
  {
    hide Run;
    assert forall e | e in events[..i] :: e in events;
    PaidImpliesVerified(cfg, events[..i], p);
    var t := At(cfg, events, i).store.orders[p].txHash.value;
    var c :| BeginVerify(c, p, t) in events[..i];
  }

  /** Two payable orders and two texts for one transaction: both verifications go through. */
  lemma TwoTextsPayTwice(cfg: Config, s: State, c: nat, d: nat, p: Id, q: Id, t: string, u: string)
    requires Payable(cfg, s, p, t) && Payable(cfg, s, q, u) && p != q && t != u
    requires c != d && c !in s.calls && d !in s.calls
    ensures var store := After(cfg, s, Pay(c, p, t) + Pay(d, q, u)).store;
      && IsPaid(store, p) && OnChain(cfg, store, p) == cfg.decode(t)
      && IsPaid(store, q) && OnChain(cfg, store, q) == cfg.decode(u)
  {
    hide After, Pay, AcceptsTotal;
    AfterConcat(cfg, s, Pay(c, p, t), Pay(d, q, u));
    PaymentGoesThrough(cfg, s, c, p, t);
    var r := After(cfg, s, Pay(c, p, t));
    AcceptsLater(cfg, s, r, u, s.store.orders[q].total);
    PaymentGoesThrough(cfg, r, d, q, u);
  }

  lemma AcceptsLater(cfg: Config, s: State, r: State, text: string, total: real)
    requires AcceptsTotal(cfg, s, text, total) && r.chain == s.chain && r.latest == s.latest
    ensures AcceptsTotal(cfg, r, text, total)
  {
  }

  /** A run from the empty shop in which one transaction, named in two ways, settles two orders. */
  function TwiceByOne(cfg: Config, t: string, u: string): seq<Event> {
    Opening(cfg, cfg.decode(t)) + (Pay(3, 0, t) + Pay(4, 1, u))
  }

  lemma TwoTextsTwoOrders(cfg: Config, t: string, u: string)
    requires t != u && t != "" && u != "" && cfg.decode(t) == cfg.decode(u)
    ensures PaysWithin(TwiceByOne(cfg, t, u), iset{t, u})
    ensures !EachOrderItsOwnPayment(cfg, TwiceByOne(cfg, t, u))
  {
    hide Run, After, Payable;
    var opening := Opening(cfg, cfg.decode(t));
    OpeningState(cfg, cfg.decode(t));
    OpeningIsPayable(cfg, cfg.decode(t), 0, t);
    OpeningIsPayable(cfg, cfg.decode(t), 1, u);
    RunConcat(cfg, opening, Pay(3, 0, t) + Pay(4, 1, u));
    TwoTextsPayTwice(cfg, Run(cfg, opening), 3, 4, 0, 1, t, u);
    var events := TwiceByOne(cfg, t, u);
    assert events[..|events|] == events;
    var store := At(cfg, events, |events|).store;
    assert IsPaid(store, 0) && IsPaid(store, 1) && OnChain(cfg, store, 0) == OnChain(cfg, store, 1);
  }

  /** One on-chain payment settles one order in every run whose requests use hash texts from a given set, exactly when
      no two texts of the set name the same transaction. The handler decodes the text for its checks but records and
      reserves the text itself, so for arbitrary texts the promise fails. */
  lemma OnePaymentOneOrderIff(cfg: Config, texts: iset<string>)
    requires "" !in texts
    ensures Canonical(cfg, texts) <==>
      forall events | PaysWithin(events, texts) :: EachOrderItsOwnPayment(cfg, events)
  {
    hide Run, EachOrderItsOwnPayment, TwiceByOne;
    if Canonical(cfg, texts) {
      forall events | PaysWithin(events, texts) ensures EachOrderItsOwnPayment(cfg, events) {
        CanonicalIsEnough(cfg, texts, events);
      }
    } else {
      var t, u :| t in texts && u in texts && t != u && cfg.decode(t) == cfg.decode(u);
      TwoTextsTwoOrders(cfg, t, u);
      assert PaysWithin(TwiceByOne(cfg, t, u), texts);
    }
  }

  /** Any decoder that reads a text the same with and without a prefix already breaks the promise. */
  lemma OptionalPrefixPaysTwice(cfg: Config, prefix: string, text: string)
    requires prefix != "" && text != "" && cfg.decode(prefix + text) == cfg.decode(text)
    ensures !EachOrderItsOwnPayment(cfg, TwiceByOne(cfg, text, prefix + text))
  {
    hide Run, EachOrderItsOwnPayment, TwiceByOne;
    assert |prefix + text| > |text|;
    TwoTextsTwoOrders(cfg, text, prefix + text);
  }
}
