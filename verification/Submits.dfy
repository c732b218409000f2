/** The checkout form: look for a pending order of the wallet, then create one. */
module Submits {
  import opened Model
  import opened Stock
  import opened Redis
  import opened Linearize
  import opened Indexes
  import opened Runs
  import opened Races
  import Checkout

  /** The call is creating an order for this wallet. */
  predicate Creates(s: State, c: nat, w: string) {
    c in s.calls && (s.calls[c].Retrying? || s.calls[c].Reading?) && s.calls[c].cart.wallet == w
  }

  predicate Posts(s: State, e: Event, w: string) {
    e.BeginCheckout? && e.c !in s.calls && e.cart.wallet == w
  }

  ghost predicate NoPending(s: State, w: string) {
    forall id :: !PendingOf(s.store.orders, w, id)
  }

  /** The form found no pending order at instant f, and from then until it creates its order at instant b no other
      form of the wallet is creating one. */
  ghost predicate AloneSince(cfg: Config, events: seq<Event>, f: nat, b: nat, w: string)
    requires f <= b <= |events|
  {
    && FindPending(At(cfg, events, f).store, w).None?
    && forall k, c | f <= k <= b :: !Creates(At(cfg, events, k), c, w)
  }

  /** Forms of the wallet do not overlap. */
  ghost predicate SerialPosts(cfg: Config, events: seq<Event>, w: string) {
    forall b: nat | b < |events| && Posts(At(cfg, events, b), events[b], w) ::
      exists f: nat | f <= b :: AloneSince(cfg, events, f, b, w)
  }

  /** At most one order of the wallet is pending or about to be. */
  ghost predicate AtMostOne(s: State, w: string) {
    && (forall p, q | PendingOf(s.store.orders, w, p) && PendingOf(s.store.orders, w, q) :: p == q)
    && (forall c, d | Creates(s, c, w) && Creates(s, d, w) :: c == d)
    && (forall c | Creates(s, c, w) :: NoPending(s, w))
  }

  // ---------- what one event can do ----------

  /** An order becomes pending only at the end of a creating call. */
  lemma PendingBefore(cfg: Config, s: State, e: Event, w: string, id: Id)
    requires SettlingOnly(s) && PendingOf(Apply(cfg, s, e).store.orders, w, id)
    requires Snapshots(s)
    ensures
      || PendingOf(s.store.orders, w, id)
      || (e.Exec? && id == e.id && Creates(s, e.c, w) && !Creates(Apply(cfg, s, e), e.c, w))
  {
    hide Apply, Step;
    OrdersEffect(cfg, s, e);
    EventEffect(cfg, s, e);
    if e.Proceed? && e.c in s.calls { StepOrders(cfg, s, e.c, s.calls[e.c]); }
  }

  lemma CreatesBefore(cfg: Config, s: State, e: Event, w: string, c: nat)
    requires Creates(Apply(cfg, s, e), c, w)
    ensures Creates(s, c, w) || (Posts(s, e, w) && e.c == c)
  {
    hide Apply, Step;
    OthersStay(cfg, s, e);
    EventEffect(cfg, s, e);
    if Caller(e) != Some(c) {
      assert Lookup(Apply(cfg, s, e).calls, c) == Lookup(s.calls, c);
    } else if e.Proceed? {
      if c in s.calls { Checkout.StepLeavesCreate(cfg, s, c, s.calls[c]); }
    } else if !e.Exec? {
      QuietCreates(cfg, s, e, w);
    }
  }

  lemma QuietCreates(cfg: Config, s: State, e: Event, w: string)
    requires !e.Proceed? && !e.Exec? && Caller(e).Some? && Creates(Apply(cfg, s, e), e.c, w)
    ensures Creates(s, e.c, w) || Posts(s, e, w)
  {
    hide Edited, FreshArticle, EndAttempt, Step, KeySet;
  }

  lemma AtMostOneStep(cfg: Config, s: State, e: Event, w: string)
    requires Inv(s) && SettlingOnly(s) && AtMostOne(s, w)
    requires Posts(s, e, w) ==> NoPending(s, w) && forall c :: !Creates(s, c, w)
    ensures AtMostOne(Apply(cfg, s, e), w)
  {
    hide Apply, PendingOf, Creates;
    var r := Apply(cfg, s, e);
    forall p, q | PendingOf(r.store.orders, w, p) && PendingOf(r.store.orders, w, q) ensures p == q {
      PendingBefore(cfg, s, e, w, p);
      PendingBefore(cfg, s, e, w, q);
    }
    forall c, d | Creates(r, c, w) && Creates(r, d, w) ensures c == d {
      CreatesBefore(cfg, s, e, w, c);
      CreatesBefore(cfg, s, e, w, d);
    }
    forall c, p | Creates(r, c, w) && PendingOf(r.store.orders, w, p) ensures false {
      CreatesBefore(cfg, s, e, w, c);
      PendingBefore(cfg, s, e, w, p);
    }
  }

  // ---------- runs ----------

  /** While nobody creates an order for the wallet, none becomes pending. */
  lemma {:induction false} NoneStays(cfg: Config, events: seq<Event>, f: nat, b: nat, w: string)
    requires f <= b <= |events| && NoPending(At(cfg, events, f), w) && forall e | e in events :: Settles(e)
    requires forall k, c | f <= k <= b :: !Creates(At(cfg, events, k), c, w)
    ensures NoPending(At(cfg, events, b), w)
  {
    hide Apply, PendingOf, Creates;
    if f == b {
    } else {
      NoneStays(cfg, events, f, b - 1, w);
      AtNext(cfg, events, b - 1);
      RunInv(cfg, events[..b - 1]);
      assert forall e | e in events[..b - 1] :: e in events;
      IndexesStayExact(cfg, events[..b - 1]);
      forall id ensures !PendingOf(At(cfg, events, b).store.orders, w, id) {
        if PendingOf(At(cfg, events, b).store.orders, w, id) {
          PendingBefore(cfg, At(cfg, events, b - 1), events[b - 1], w, id);
        }
      }
    }
  }

  /** A form that is alone creates its order when the wallet has none. */
  lemma AloneFindsNone(cfg: Config, events: seq<Event>, f: nat, b: nat, w: string)
    requires f <= b <= |events| && AloneSince(cfg, events, f, b, w) && forall e | e in events :: Settles(e)
    ensures NoPending(At(cfg, events, b), w)
  {
    hide Apply, Creates;
    assert forall e | e in events[..f] :: e in events;
    IndexesStayExact(cfg, events[..f]);
    forall id ensures !PendingOf(At(cfg, events, f).store.orders, w, id) {
      assert id !in PendingSet(At(cfg, events, f).store, w);
    }
    NoneStays(cfg, events, f, b, w);
  }

  lemma {:induction false} OnePendingUntil(cfg: Config, events: seq<Event>, n: nat, w: string)
    requires n <= |events| && SerialPosts(cfg, events, w) && forall e | e in events :: Settles(e)
    ensures AtMostOne(At(cfg, events, n), w)
  {
    hide Apply, AtMostOne, AloneSince;
    if n == 0 {
      NothingYet(w);
    } else {
      OnePendingUntil(cfg, events, n - 1, w);
      var s, e := At(cfg, events, n - 1), events[n - 1];
      AtNext(cfg, events, n - 1);
      RunInv(cfg, events[..n - 1]);
      assert forall x | x in events[..n - 1] :: x in events;
      IndexesStayExact(cfg, events[..n - 1]);
      if Posts(s, e, w) {
        var f: nat :| f <= n - 1 && AloneSince(cfg, events, f, n - 1, w);
        AloneFindsNone(cfg, events, f, n - 1, w);
        AloneNow(cfg, events, f, n - 1, w);
      }
      AtMostOneStep(cfg, s, e, w);
    }
  }

  lemma NothingYet(w: string)
    ensures AtMostOne(Init(), w)
  {
  }

  lemma AloneNow(cfg: Config, events: seq<Event>, f: nat, b: nat, w: string)
    requires f <= b <= |events| && AloneSince(cfg, events, f, b, w)
    ensures forall c :: !Creates(At(cfg, events, b), c, w)
  {
    hide Apply, Creates;
  }

  /** When forms of a wallet do not overlap, and no order is made pending again, the wallet never has two pending
      orders, whatever else happens in the shop. */
  lemma OnePendingPerWallet(cfg: Config, events: seq<Event>, w: string, p: Id, q: Id)
    requires SerialPosts(cfg, events, w) && forall e | e in events :: Settles(e)
    requires PendingOf(Run(cfg, events).store.orders, w, p) && PendingOf(Run(cfg, events).store.orders, w, q)
    ensures p == q
  {
    hide Apply;
    OnePendingUntil(cfg, events, |events|, w);
    assert events[..|events|] == events;
  }

  // ---------- overlapping forms ----------

  /** Both forms look for a pending order right after the article was added; then each creates one. */
  function DoubleSubmit(): seq<Event> {
    [AddArticle(0, 0, ARTICLE)] + (Buy(1, "alice", LINE, 0, 1) + Buy(2, "alice", LINE, 1, 2))
  }

  /** Two overlapping forms of one wallet both find nothing and both create an order: the search does not protect
      against a double submit. */
  lemma DoubleSubmitCreatesTwo(cfg: Config)
    ensures FindPending(At(cfg, DoubleSubmit(), 1).store, "alice").None?
    ensures var orders := Run(cfg, DoubleSubmit()).store.orders;
      PendingOf(orders, "alice", 0) && PendingOf(orders, "alice", 1)
  {
    hide After, Apply, PlaceOrder, Buy;
    var add, first, second := AddArticle(0, 0, ARTICLE), Buy(1, "alice", LINE, 0, 1), Buy(2, "alice", LINE, 1, 2);
    var s1 := Apply(cfg, Init(), add);
    Added(cfg);
    NothingFound(s1.store);
    FirstInstant(cfg, add, first + second);
    RunConcat(cfg, [], DoubleSubmit());
    assert [] + DoubleSubmit() == DoubleSubmit();
    AfterCons(cfg, Init(), add, first + second);
    AfterConcat(cfg, s1, first, second);
    CheckoutGoesThrough(cfg, s1, 1, "alice", LINE, 0, 1);
    Ordered(cfg, s1.store, "alice", 0, 1);
    var s2 := After(cfg, s1, first);
    CheckoutGoesThrough(cfg, s2, 2, "alice", LINE, 1, 2);
    Ordered(cfg, s2.store, "alice", 1, 2);
  }

  lemma NothingFound(store: Store)
    requires store.pending == map[]
    ensures FindPending(store, "alice").None?
  {
    var z := PendingSet(store, "alice");
    assert forall id :: id !in z;
    assert z == map[];
  }

  lemma FirstInstant(cfg: Config, e: Event, rest: seq<Event>)
    ensures At(cfg, [e] + rest, 1) == Apply(cfg, Init(), e)
  {
    hide Apply;
    AtNext(cfg, [e] + rest, 0);
  }
}
