/** Overlapping calls: the check of a handler and its write are separate commands, and so are the read and the write
    of an article update. */
module Races {
  import opened Model
  import opened Stock
  import opened Payment
  import opened Redis
  import opened Linearize
  import opened Settlement
  import opened Runs
  import Catalogue
  import Documents

  // ---------- a shop with two payable orders ----------

  const ARTICLE: Article := Article("article", 2, 1.0, 0, 0)
  const LINE: Line := Line(0, 1, 1.0)

  /** An amount that covers any one-unit order. */
  function Enough(cfg: Config): nat {
    var due := Wei(Total([LINE]), cfg.rate);
    if due < 0 then 0 else due
  }

  /** An article is added, two customers order a unit each, and a payment to the shop is mined and confirmed. */
  function Opening(cfg: Config, key: nat): seq<Event> {
    [AddArticle(0, 0, ARTICLE)] + (Buy(1, "alice", LINE, 0, 1) + (Buy(2, "bob", LINE, 1, 2) +
      ([Mine(key, ChainTx(false, true, 0, Some(cfg.wallet), Enough(cfg)))] + [NewBlock])))
  }

  /** Both orders are stored, pending, and can be paid with any text that names the mined transaction. */
  lemma OpeningState(cfg: Config, key: nat)
    ensures var s := Run(cfg, Opening(cfg, key));
      && s.store.orders == map[0 := Spec.NewOrder("alice", [LINE], 1), 1 := Spec.NewOrder("bob", [LINE], 2)]
      && s.store.txOwner == map[]
      && s.calls.Keys == {0, 1, 2}
      && s.chain == map[key := ChainTx(false, true, 0, Some(cfg.wallet), Enough(cfg))] && s.latest == 1
  {
    hide After, Apply, PlaceOrder, Buy;
    var tx := ChainTx(false, true, 0, Some(cfg.wallet), Enough(cfg));
    var ending := [Mine(key, tx)] + [NewBlock];
    var s0 := Init();
    var s1 := Apply(cfg, s0, AddArticle(0, 0, ARTICLE));
    Added(cfg);
    AfterCons(cfg, s0, AddArticle(0, 0, ARTICLE), Buy(1, "alice", LINE, 0, 1) + (Buy(2, "bob", LINE, 1, 2) + ending));
    CheckoutGoesThrough(cfg, s1, 1, "alice", LINE, 0, 1);
    AfterConcat(cfg, s1, Buy(1, "alice", LINE, 0, 1), Buy(2, "bob", LINE, 1, 2) + ending);
    var s2 := After(cfg, s1, Buy(1, "alice", LINE, 0, 1));
    Ordered(cfg, s1.store, "alice", 0, 1);
    CheckoutGoesThrough(cfg, s2, 2, "bob", LINE, 1, 2);
    AfterConcat(cfg, s2, Buy(2, "bob", LINE, 1, 2), ending);
    var s3 := After(cfg, s2, Buy(2, "bob", LINE, 1, 2));
    Ordered(cfg, s2.store, "bob", 1, 2);
    MinedAndConfirmed(cfg, s3, key, tx);
    assert Opening(cfg, key) == [] + Opening(cfg, key);
    RunConcat(cfg, [], Opening(cfg, key));
  }

  lemma Added(cfg: Config)
    ensures var r := Apply(cfg, Init(), AddArticle(0, 0, ARTICLE));
      && r.store == Store(map[0 := ARTICLE], map[0 := cfg.score(0)], map[], map[], map[], map[])
      && r.calls.Keys == {0} && r.chain == map[] && r.latest == 0
  {
    assert FreshArticle(Init(), 0);
  }

  lemma Ordered(cfg: Config, store: Store, wallet: string, id: Id, created: int)
    requires LINE.article in store.articles
    ensures var r := PlaceOrder(cfg, store, map[0 := Sell(store.articles[0], 1, created)], Cart(wallet, [LINE]), id,
      created);
      && r.orders == store.orders[id := Spec.NewOrder(wallet, [LINE], created)] && r.txOwner == store.txOwner
      && 0 in r.articles && r.articles[0].quantity == store.articles[0].quantity - 1
  {
  }

  lemma MinedAndConfirmed(cfg: Config, s: State, key: nat, tx: ChainTx)
    requires s.chain == map[] && s.latest == 0
    ensures var r := After(cfg, s, [Mine(key, tx)] + [NewBlock]);
      r.store == s.store && r.calls == s.calls && r.chain == map[key := tx] && r.latest == 1
  {
    AfterCons(cfg, s, Mine(key, tx), [NewBlock]);
    AfterOne(cfg, Apply(cfg, s, Mine(key, tx)), NewBlock);
  }

  lemma OpeningIsPayable(cfg: Config, key: nat, id: Id, text: string)
    requires id < 2 && text != "" && cfg.decode(text) == key
    ensures Payable(cfg, Run(cfg, Opening(cfg, key)), id, text)
  {
    hide Run, Opening;
    OpeningState(cfg, key);
  }

  // ---------- settlement ----------

  /** A cancellation reads the order and stops before its write. */
  function Stall(d: nat, id: Id, wallet: string): seq<Event> {
    [BeginCancel(d, id, wallet)] + ([Proceed(d)] + [Proceed(d)])
  }

  lemma CancelStalls(cfg: Config, s: State, d: nat, id: Id)
    requires id in s.store.orders && s.store.orders[id].status == Pending && d !in s.calls
    ensures var doc := s.store.orders[id];
      Same(After(cfg, s, Stall(d, id, doc.wallet)), s.(calls := s.calls[d := Writing(id, Failed, None, doc)]))
  {
    hide After;
    var doc := s.store.orders[id];
    AfterCons(cfg, s, BeginCancel(d, id, doc.wallet), [Proceed(d)] + [Proceed(d)]);
    var s1 := Move(s, d, CancelGet(id, doc.wallet));
    assert Apply(cfg, s, BeginCancel(d, id, doc.wallet)) == s1;
    var s2 := Move(s1, d, UpdateGet(id, Failed, None));
    AfterCons(cfg, s1, Proceed(d), [Proceed(d)]);
    assert Apply(cfg, s1, Proceed(d)) == s2;
    AfterOne(cfg, s2, Proceed(d));
  }

  /** From any state with a payable order, overlapping calls record the payment and then lose it: the stale
      cancellation turns the paid order into a failed one without hash. Finality needs calls not to overlap. */
  lemma OverlapLosesPayment(cfg: Config, s: State, c: nat, d: nat, id: Id, text: string)
    requires Payable(cfg, s, id, text) && c != d && c !in s.calls && d !in s.calls
    ensures var doc := s.store.orders[id];
      var payment := Stall(d, id, doc.wallet) + Pay(c, id, text);
      var paid, lost := After(cfg, s, payment), After(cfg, s, payment + [Proceed(d)]);
      && Lookup(paid.store.orders, id) == Some(doc.(status := Paid, txHash := Some(text)))
      && Lookup(lost.store.orders, id) == Some(doc.(status := Failed, txHash := None))
      && Lookup(lost.store.txOwner, text) == Some(id)
  {
    hide Apply, After;
    var doc := s.store.orders[id];
    CancelStalls(cfg, s, d, id);
    AfterConcat(cfg, s, Stall(d, id, doc.wallet), Pay(c, id, text));
    PaymentGoesThrough(cfg, After(cfg, s, Stall(d, id, doc.wallet)), c, id, text);
    var paid := After(cfg, s, Stall(d, id, doc.wallet) + Pay(c, id, text));
    StaleCancelWins(cfg, paid, d, id, doc);
    AfterNext(cfg, s, Stall(d, id, doc.wallet) + Pay(c, id, text), Proceed(d));
  }

  lemma StaleCancelWins(cfg: Config, s: State, d: nat, id: Id, doc: Order)
    requires Lookup(s.calls, d) == Some(Writing(id, Failed, None, doc))
    ensures var r := Apply(cfg, s, Proceed(d));
      && Lookup(r.store.orders, id) == Some(doc.(status := Failed, txHash := None))
      && r.store.txOwner == s.store.txOwner
  {
  }

  ghost predicate HasStatus(cfg: Config, events: seq<Event>, id: Id, status: Status) {
    id in Run(cfg, events).store.orders && Run(cfg, events).store.orders[id].status == status
  }

  /** It does happen: a run from the empty shop, without direct status updates, takes an order from paid to failed. */
  lemma PaidCanBecomeFailed(cfg: Config, text: string) returns (paid: seq<Event>, more: seq<Event>)
    requires text != ""
    ensures HasStatus(cfg, paid, 0, Paid) && HasStatus(cfg, paid + more, 0, Failed)
    ensures forall e | e in paid + more :: !e.BeginUpdate?
  {
    hide Apply, After, Run;
    var opening := Opening(cfg, cfg.decode(text));
    var s := Run(cfg, opening);
    OpeningState(cfg, cfg.decode(text));
    OpeningIsPayable(cfg, cfg.decode(text), 0, text);
    OverlapLosesPayment(cfg, s, 3, 4, 0, text);
    var payment := Stall(4, 0, "alice") + Pay(3, 0, text);
    paid, more := opening + payment, [Proceed(4)];
    RunConcat(cfg, opening, payment);
    RunConcat(cfg, opening, payment + more);
    assert opening + (payment + more) == paid + more;
  }

  /** After a crash between reservation and write, verifying the same order with the same hash again goes through from
      its first command: the reservation blocks other orders, never its own. */
  lemma RetryAfterCrashSettles(cfg: Config, s: State, c: nat, id: Id, text: string)
    requires c !in s.calls && text != "" && Lookup(s.store.txOwner, text) == Some(id)
    requires Accepts(cfg, s, id, text) && s.store.orders[id].status == Pending
    ensures var r := After(cfg, s, Pay(c, id, text));
      && r.store.orders == s.store.orders[id := s.store.orders[id].(status := Paid, txHash := Some(text))]
      && r.store.txOwner == s.store.txOwner
      && r.calls == s.calls[c := Finished(Done)]
  {
    hide After, Accepts;
    PaymentGoesThrough(cfg, s, c, id, text);
  }

  /** An order is placed, its payment is mined in a block above the tip of the node that is asked, and verified. */
  function EarlyPayment(cfg: Config, text: string): seq<Event> {
    [AddArticle(0, 0, ARTICLE)] + (Buy(1, "alice", LINE, 0, 1) +
      ([Mine(cfg.decode(text), ChainTx(false, true, 1, Some(cfg.wallet), Enough(cfg)))] + Pay(2, 0, text)))
  }

  /** The difference of block numbers wraps around: the order is paid while its transaction lies above the tip. */
  lemma PaidAboveTip(cfg: Config, text: string)
    requires text != ""
    ensures var s := Run(cfg, EarlyPayment(cfg, text));
      && 0 in s.store.orders && s.store.orders[0].status == Paid && s.store.orders[0].txHash == Some(text)
      && cfg.decode(text) in s.chain && s.latest < s.chain[cfg.decode(text)].block
    ensures forall e | e in EarlyPayment(cfg, text) :: !e.BeginUpdate?
  {
    hide After, Apply, PlaceOrder, Buy, AcceptsTotal;
    var add, buy, pay := AddArticle(0, 0, ARTICLE), Buy(1, "alice", LINE, 0, 1), Pay(2, 0, text);
    var mine := Mine(cfg.decode(text), ChainTx(false, true, 1, Some(cfg.wallet), Enough(cfg)));
    var s1 := Apply(cfg, Init(), add);
    Added(cfg);
    RunConcat(cfg, [], EarlyPayment(cfg, text));
    assert [] + EarlyPayment(cfg, text) == EarlyPayment(cfg, text);
    AfterCons(cfg, Init(), add, buy + ([mine] + pay));
    CheckoutGoesThrough(cfg, s1, 1, "alice", LINE, 0, 1);
    Ordered(cfg, s1.store, "alice", 0, 1);
    AfterConcat(cfg, s1, buy, [mine] + pay);
    var s2 := After(cfg, s1, buy);
    AfterCons(cfg, s2, mine, pay);
    Mined(cfg, s2, mine);
    var s3 := Apply(cfg, s2, mine);
    AcceptedEarly(cfg, s3, text);
    PaymentGoesThrough(cfg, s3, 2, 0, text);
    NoUpdatesIn(cfg, text);
  }

  lemma Mined(cfg: Config, s: State, e: Event)
    requires e.Mine? && s.chain == map[]
    ensures var r := Apply(cfg, s, e); Same(r, s.(chain := map[e.key := e.tx]))
  {
  }

  lemma AcceptedEarly(cfg: Config, s: State, text: string)
    requires s.latest == 0
    requires s.chain == map[cfg.decode(text) := ChainTx(false, true, 1, Some(cfg.wallet), Enough(cfg))]
    ensures AcceptsTotal(cfg, s, text, Total([LINE]))
  {
    assert Confirmations(0, 1) >= MIN_CONFIRMATIONS;
  }

  lemma NoUpdatesIn(cfg: Config, text: string)
    ensures forall e | e in EarlyPayment(cfg, text) :: !e.BeginUpdate?
  {
  }

  // ---------- article updates ----------

  /** An update reads the article, the article is deleted with its index entry, and the update writes it back. */
  function EditAfterDelete(name: string): seq<Event> {
    [AddArticle(0, 0, ARTICLE)] +
      ([BeginEdit(1, 0)] + ([BeginDelete(2, 0)] + ([Proceed(2)] + [SaveEdit(1, name, None, None, 1)])))
  }

  /** The deleted article is stored again and will never be listed. */
  lemma EditBringsBackDeleted(cfg: Config, name: string)
    ensures var s := Run(cfg, EditAfterDelete(name));
      0 in s.store.articles && 0 !in s.store.articleIndex && !Catalogue.IndexExact(s)
      && (forall c | c in s.calls :: s.calls[c].Finished?)
  {
    hide After;
    var e1, e2, e3, e4, e5 := AddArticle(0, 0, ARTICLE), BeginEdit(1, 0), BeginDelete(2, 0), Proceed(2),
      SaveEdit(1, name, None, None, 1);
    var s0 := Init();
    var s1 := Apply(cfg, s0, e1);
    Added(cfg);
    assert s1.calls == map[0 := Finished(Done)] by { assert FreshArticle(s0, 0); }
    RunConcat(cfg, [], EditAfterDelete(name));
    assert [] + EditAfterDelete(name) == EditAfterDelete(name);
    AfterCons(cfg, s0, e1, [e2] + ([e3] + ([e4] + [e5])));
    AfterCons(cfg, s1, e2, [e3] + ([e4] + [e5]));
    var s2 := Move(s1, 1, Editing(0, ARTICLE));
    assert Apply(cfg, s1, e2) == s2;
    AfterCons(cfg, s2, e3, [e4] + [e5]);
    DeletedThenSaved(cfg, s2, name);
  }

  lemma DeletedThenSaved(cfg: Config, s: State, name: string)
    requires s.store == Store(map[0 := ARTICLE], map[0 := cfg.score(0)], map[], map[], map[], map[])
    requires s.calls == map[0 := Finished(Done), 1 := Editing(0, ARTICLE)]
    ensures var r := After(cfg, Apply(cfg, s, BeginDelete(2, 0)), [Proceed(2)] + [SaveEdit(1, name, None, None, 1)]);
      0 in r.store.articles && 0 !in r.store.articleIndex
      && (forall c | c in r.calls :: r.calls[c].Finished?)
  {
    hide After, Apply;
    var s3 := Apply(cfg, s, BeginDelete(2, 0));
    DeleteBegins(cfg, s, 2, 0);
    AfterCons(cfg, s3, Proceed(2), [SaveEdit(1, name, None, None, 1)]);
    var s4 := Apply(cfg, s3, Proceed(2));
    ProceedSteps(cfg, s3, 2);
    AfterOne(cfg, s4, SaveEdit(1, name, None, None, 1));
    Documents.SaveWrites(cfg, s4, SaveEdit(1, name, None, None, 1));
  }

  lemma DeleteBegins(cfg: Config, s: State, c: nat, a: Id)
    requires c !in s.calls && a in s.store.articles
    ensures Apply(cfg, s, BeginDelete(c, a)) ==
      Write(s, c, Deindexing(a), s.store.(articles := s.store.articles - {a}), {a}, false)
  {
  }

  /** An update that only renames reads the article, a unit is sold, and the update writes the document back. */
  function RenameAcrossSale(name: string): seq<Event> {
    [AddArticle(0, 0, ARTICLE)] +
      ([BeginEdit(3, 0)] + (Buy(1, "alice", LINE, 0, 1) + [SaveEdit(3, name, None, None, 2)]))
  }

  /** The unit sold is back in stock: the shop has two units and has sold a third. */
  lemma RenamePutsSoldStockBack(cfg: Config, name: string)
    ensures var store := Run(cfg, RenameAcrossSale(name)).store;
      0 in store.articles && store.articles[0].quantity == ARTICLE.quantity && Sold(store.orders, 0) == 1
  {
    hide After, Apply, PlaceOrder, Buy;
    var e1, e2, e4 := AddArticle(0, 0, ARTICLE), BeginEdit(3, 0), SaveEdit(3, name, None, None, 2);
    var s0 := Init();
    var s1 := Apply(cfg, s0, e1);
    Added(cfg);
    RunConcat(cfg, [], RenameAcrossSale(name));
    assert [] + RenameAcrossSale(name) == RenameAcrossSale(name);
    AfterCons(cfg, s0, e1, [e2] + (Buy(1, "alice", LINE, 0, 1) + [e4]));
    AfterCons(cfg, s1, e2, Buy(1, "alice", LINE, 0, 1) + [e4]);
    EditBegins(cfg, s1, 3, 0);
    var s2 := Apply(cfg, s1, e2);
    CheckoutGoesThrough(cfg, s2, 1, "alice", LINE, 0, 1);
    AfterConcat(cfg, s2, Buy(1, "alice", LINE, 0, 1), [e4]);
    var s3 := After(cfg, s2, Buy(1, "alice", LINE, 0, 1));
    Ordered(cfg, s2.store, "alice", 0, 1);
    AfterOne(cfg, s3, e4);
    Documents.SaveWrites(cfg, s3, e4);
    SoldUpdate(map[], 0, Spec.NewOrder("alice", [LINE], 1), 0);
    assert Demand([LINE], 0) == 1 by { assert [LINE][1..] == []; }
  }

  lemma EditBegins(cfg: Config, s: State, c: nat, a: Id)
    requires c !in s.calls && a in s.store.articles
    ensures Apply(cfg, s, BeginEdit(c, a)) == Move(s, c, Editing(a, s.store.articles[a]))
  {
  }
}
