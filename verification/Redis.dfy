/** The Redis backend under concurrency. Every event is one atomic command (or EXEC block) of one call;
    any number of calls interleave, and a crashed call is one that takes no further event. */
module Redis {
  import opened Model
  import opened Stock
  import opened SortedSet
  import opened Payment
  import Spec

  const CREATE_MAX_RETRIES: nat := 5

  // score: what the sorted-set score keeps of a creation time; decode: hash text to on-chain hash.
  datatype Config = Config(score: int -> int, decode: string -> nat, wallet: string, rate: real)

  // order:<id>, orders:index, orders:pending:<wallet>, order:txhash:<hash>, article:<id>, articles:index
  datatype Store = Store(
    articles: map<Id, Article>,
    articleIndex: ZSet,
    orders: map<Id, Order>,
    orderIndex: ZSet,
    pending: map<(string, Id), int>,
    txOwner: map<string, Id>)

  // One entry per event: who caused it and which article keys it wrote; placed marks a committed checkout.
  datatype Entry = Entry(caller: Option<nat>, keys: set<Id>, placed: bool)

  datatype Reply = Done | NotFound | Conflict | Invalid | Unpaid | HashReused | Aborted

  datatype Cart = Cart(wallet: string, lines: seq<Line>)

  // Where a call stands between two commands. `start` is the instant the call began.
  datatype Call =
    // orders.Create: about to WATCH; reading the watched articles; its three results
    | Retrying(cart: Cart, start: nat, attempt: nat)
    | Reading(cart: Cart, start: nat, attempt: nat, mark: nat, seen: map<Id, Option<Article>>)
    | Placed(cart: Cart, start: nat, order: Id)
    | Refused(cart: Cart, start: nat, short: Id)
    | Contended(cart: Cart, start: nat)
    // payment.verify and ui.checkoutCancel up to their UpdateStatus call
    | VerifyGet(id: Id, text: string)
    | Verifying(id: Id, text: string, total: real)
    | CancelGet(id: Id, wallet: string)
    // orders.UpdateStatus: GET, SETNX, owner check, write-back
    | UpdateGet(id: Id, status: Status, hash: Option<string>)
    | Reserving(id: Id, status: Status, text: string, doc: Order)
    | CheckingOwner(id: Id, status: Status, text: string, doc: Order)
    | Writing(id: Id, status: Status, hash: Option<string>, doc: Order)
    | Finished(reply: Reply)
    // articles.Delete between DEL and ZREM; articles.Update between GET and SET; articles.List
    | Deindexing(article: Id)
    | Editing(article: Id, loaded: Article)
    | Listing(start: nat, ids: seq<Id>)
    | Listed(start: nat, rows: seq<Id>)

  datatype State = State(store: Store, calls: map<nat, Call>, log: seq<Entry>, chain: map<nat, ChainTx>, latest: nat)

  datatype Event =
    | BeginCheckout(c: nat, cart: Cart)
    | Watch(c: nat)
    | Read(c: nat, article: Id)
    | Exec(c: nat, id: Id, created: int, now: int)
    | BeginVerify(c: nat, id: Id, text: string)
    | BeginCancel(c: nat, id: Id, wallet: string)
    | BeginUpdate(c: nat, id: Id, status: Status, hash: Option<string>)
    | Proceed(c: nat)
    | Abort(c: nat)
    | AddArticle(c: nat, id: Id, value: Article)
    | BeginDelete(c: nat, id: Id)
    | BeginEdit(c: nat, id: Id)
    | SaveEdit(c: nat, name: string, quantity: Option<int>, price: Option<real>, now: int)
    | BeginList(c: nat)
    | Mine(key: nat, tx: ChainTx)
    | NewBlock

  function Init(): State {
    State(Store(map[], map[], map[], map[], map[], map[]), map[], [], map[], 0)
  }

  // ---------- stepping ----------

  function Stay(s: State): State {
    s.(log := s.log + [Entry(None, {}, false)])
  }

  function Move(s: State, c: nat, to: Call): State {
    s.(calls := s.calls[c := to], log := s.log + [Entry(Some(c), {}, false)])
  }

  function Write(s: State, c: nat, to: Call, store: Store, keys: set<Id>, placed: bool): State {
    State(store, s.calls[c := to], s.log + [Entry(Some(c), keys, placed)], s.chain, s.latest)
  }

  /** Every event adds exactly one log entry, so the log length is the clock. */
  ghost predicate Ticked(s: State, r: State) {
    |r.log| == |s.log| + 1 && r.log == s.log + [r.log[|s.log|]]
  }

  // ---------- orders.Create ----------

  /** EXEC goes through exactly when no watched article was written since WATCH. */
  predicate Clean(log: seq<Entry>, mark: nat, keys: set<Id>) {
    forall i | mark <= i < |log| :: log[i].keys !! keys
  }

  function Loaded(seen: map<Id, Option<Article>>): map<Id, Article> {
    map a | a in seen && seen[a].Some? :: seen[a].value
  }

  function PlaceOrder(cfg: Config, store: Store, written: map<Id, Article>, cart: Cart, id: Id, created: int): Store {
    store.(articles := store.articles + written,
           orders := store.orders[id := Spec.NewOrder(cart.wallet, cart.lines, created)],
           orderIndex := store.orderIndex[id := cfg.score(created)],
           pending := store.pending[(cart.wallet, id) := cfg.score(created)])
  }

  /** The end of one attempt: compute on the articles read, then EXEC. */
  function EndAttempt(cfg: Config, s: State, c: nat, call: Call, id: Id, created: int, now: int): (r: State)
    requires call.Reading?
    ensures Ticked(s, r)
  {
    match Take(Loaded(call.seen), call.cart.lines, now)
    case Short(a) => Move(s, c, Refused(call.cart, call.start, a))
    case Filled(written) =>
      if Clean(s.log, call.mark, KeySet(call.cart.lines)) then
        Write(s, c, Placed(call.cart, call.start, id),
              PlaceOrder(cfg, s.store, written, call.cart, id, created), written.Keys, true)
      else if call.attempt + 1 < CREATE_MAX_RETRIES then
        Move(s, c, Retrying(call.cart, call.start, call.attempt + 1))
      else
        Move(s, c, Contended(call.cart, call.start))
  }

  /** All watched articles were read and the fresh identifier is unused. */
  predicate CanExec(s: State, c: nat, id: Id) {
    c in s.calls && s.calls[c].Reading? && s.calls[c].seen.Keys == KeySet(s.calls[c].cart.lines) &&
      id !in s.store.orders
  }

  // ---------- settlement ----------

  predicate HasText(hash: Option<string>) {
    hash.Some? && hash.value != ""
  }

  /** GET and decide of payment.verify. */
  function CheckPending(s: State, c: nat, id: Id, text: string): (r: State)
    ensures Ticked(s, r)
  {
    if id !in s.store.orders then Move(s, c, Finished(NotFound))
    else if s.store.orders[id].status != Pending then Move(s, c, Finished(Conflict))
    else Move(s, c, Verifying(id, text, s.store.orders[id].total))
  }

  /** The chain check of payment.verify against the total read before. */
  function CheckChain(cfg: Config, s: State, c: nat, id: Id, text: string, total: real): (r: State)
    ensures Ticked(s, r)
  {
    if VerifyPayment(Lookup(s.chain, cfg.decode(text)), s.latest, cfg.wallet, Wei(total, cfg.rate),
        MIN_CONFIRMATIONS).Accepted?
    then Move(s, c, UpdateGet(id, Paid, Some(text)))
    else Move(s, c, Finished(Unpaid))
  }

  /** GET and decide of ui.checkoutCancel. */
  function CheckCancel(s: State, c: nat, id: Id, wallet: string): (r: State)
    ensures Ticked(s, r)
  {
    if id !in s.store.orders then Move(s, c, Finished(NotFound))
    else if s.store.orders[id].wallet != wallet || s.store.orders[id].status != Pending
    then Move(s, c, Finished(Conflict))
    else Move(s, c, UpdateGet(id, Failed, None))
  }

  function GetForUpdate(s: State, c: nat, id: Id, status: Status, hash: Option<string>): (r: State)
    ensures Ticked(s, r)
  {
    if id !in s.store.orders then Move(s, c, Finished(NotFound))
    else if HasText(hash) then Move(s, c, Reserving(id, status, hash.value, s.store.orders[id]))
    else Move(s, c, Writing(id, status, hash, s.store.orders[id]))
  }

  /** SETNX order:txhash:<hash>. */
  function Reserve(s: State, c: nat, call: Call): (r: State)
    requires call.Reserving?
    ensures Ticked(s, r)
  {
    if call.text in s.store.txOwner then Move(s, c, CheckingOwner(call.id, call.status, call.text, call.doc))
    else Write(s, c, Writing(call.id, call.status, Some(call.text), call.doc),
               s.store.(txOwner := s.store.txOwner[call.text := call.id]), {}, false)
  }

  function CheckOwner(s: State, c: nat, call: Call): (r: State)
    requires call.CheckingOwner?
    ensures Ticked(s, r)
  {
    if Lookup(s.store.txOwner, call.text) == Some(call.id)
    then Move(s, c, Writing(call.id, call.status, Some(call.text), call.doc))
    else Move(s, c, Finished(HashReused))
  }

  /** MULTI: SET order:<id> from the document read before, ZREM the pending entry. */
  function WriteBack(s: State, c: nat, call: Call): (r: State)
    requires call.Writing?
    ensures Ticked(s, r)
  {
    var doc := call.doc.(status := call.status, txHash := call.hash);
    var pending := if call.status == Pending then s.store.pending else s.store.pending - {(doc.wallet, call.id)};
    Write(s, c, Finished(Done), s.store.(orders := s.store.orders[call.id := doc], pending := pending), {}, false)
  }

  function Step(cfg: Config, s: State, c: nat, call: Call): (r: State)
    ensures Ticked(s, r)
  {
    match call
    case VerifyGet(id, text) => CheckPending(s, c, id, text)
    case Verifying(id, text, total) => CheckChain(cfg, s, c, id, text, total)
    case CancelGet(id, wallet) => CheckCancel(s, c, id, wallet)
    case UpdateGet(id, status, hash) => GetForUpdate(s, c, id, status, hash)
    case Reserving(_, _, _, _) => Reserve(s, c, call)
    case CheckingOwner(_, _, _, _) => CheckOwner(s, c, call)
    case Writing(_, _, _, _) => WriteBack(s, c, call)
    case Deindexing(a) =>
      Write(s, c, Finished(Done), s.store.(articleIndex := s.store.articleIndex - {a}), {}, false)
    case Listing(start, ids) => Move(s, c, Listed(start, Existing(ids, s.store.articles)))
    case _ => Stay(s)
  }

  // ---------- catalogue ----------

  /** MGET: the documents that still exist, in index order. */
  function Existing(ids: seq<Id>, articles: map<Id, Article>): (rows: seq<Id>)
    ensures forall a :: a in rows <==> a in ids && a in articles
  {
    if ids == [] then []
    else (if ids[0] in articles then [ids[0]] else []) + Existing(ids[1..], articles)
  }

  function Edited(loaded: Article, name: string, quantity: Option<int>, price: Option<real>, now: int): Article {
    loaded.(name := if name != "" then name else loaded.name,
         quantity := if quantity.Some? then quantity.value else loaded.quantity,
         price := if price.Some? then price.value else loaded.price,
         updated := now)
  }

  /** A new identifier: nothing stored or under way mentions it. */
  ghost predicate FreshArticle(s: State, id: Id) {
    && id !in s.store.articles && id !in s.store.articleIndex
    && forall c | c in s.calls :: !Mentioned(s.calls[c], id)
  }

  predicate Mentioned(call: Call, id: Id) {
    (call.Editing? && call.article == id) || (call.Listing? && id in call.ids)
  }

  predicate InSettlement(call: Call) {
    call.VerifyGet? || call.Verifying? || call.CancelGet? || call.UpdateGet? || call.Reserving? ||
      call.CheckingOwner? || call.Writing?
  }

  predicate Begins(e: Event) {
    e.BeginCheckout? || e.BeginVerify? || e.BeginCancel? || e.BeginUpdate? || e.AddArticle? || e.BeginDelete? ||
      e.BeginEdit? || e.BeginList?
  }

  /** The first command of a call. */
  ghost function Begin(cfg: Config, s: State, e: Event): (r: State)
    requires Begins(e)
    ensures Ticked(s, r)
  {
    match e
    case BeginCheckout(c, cart) => Move(s, c, Retrying(cart, |s.log|, 0))
    case BeginVerify(c, id, text) => if text == "" then Move(s, c, Finished(Invalid))
      else Move(s, c, VerifyGet(id, text))
    case BeginCancel(c, id, wallet) => Move(s, c, CancelGet(id, wallet))
    case BeginUpdate(c, id, status, hash) => Move(s, c, UpdateGet(id, status, hash))
    case AddArticle(c, id, value) =>
      if !FreshArticle(s, id) then Stay(s)
      else Write(s, c, Finished(Done),
                 s.store.(articles := s.store.articles[id := value],
                          articleIndex := s.store.articleIndex[id := cfg.score(value.created)]), {id}, false)
    case BeginDelete(c, id) =>
      if id !in s.store.articles then Move(s, c, Finished(NotFound))
      else Write(s, c, Deindexing(id), s.store.(articles := s.store.articles - {id}), {id}, false)
    case BeginEdit(c, id) =>
      if id !in s.store.articles then Move(s, c, Finished(NotFound))
      else Move(s, c, Editing(id, s.store.articles[id]))
    case BeginList(c) => Move(s, c, Listing(|s.log|, RevRange(s.store.articleIndex)))
  }

  /** A later command of a call under way. */
  function Continue(cfg: Config, s: State, e: Event): (r: State)
    ensures Ticked(s, r)
  {
    match e
    case Watch(c) =>
      if c in s.calls && s.calls[c].Retrying?
      then Move(s, c, Reading(s.calls[c].cart, s.calls[c].start, s.calls[c].attempt, |s.log|, map[]))
      else Stay(s)
    case Read(c, a) =>
      if c in s.calls && s.calls[c].Reading? && a in KeySet(s.calls[c].cart.lines) && a !in s.calls[c].seen
      then Move(s, c, s.calls[c].(seen := s.calls[c].seen[a := Lookup(s.store.articles, a)]))
      else Stay(s)
    case Exec(c, id, created, now) =>
      if CanExec(s, c, id) then EndAttempt(cfg, s, c, s.calls[c], id, created, now) else Stay(s)
    case Proceed(c) => if c in s.calls then Step(cfg, s, c, s.calls[c]) else Stay(s)
    case Abort(c) => if c in s.calls && InSettlement(s.calls[c]) then Move(s, c, Finished(Aborted)) else Stay(s)
    case SaveEdit(c, name, quantity, price, now) =>
      if c in s.calls && s.calls[c].Editing?
      then Write(s, c, Finished(Done),
                 s.store.(articles := s.store.articles[
                   s.calls[c].article := Edited(s.calls[c].loaded, name, quantity, price, now)]),
                 {s.calls[c].article}, false)
      else Stay(s)
    case Mine(h, tx) => if h in s.chain && !s.chain[h].pending then Stay(s) else Stay(s).(chain := s.chain[h := tx])
    case NewBlock => Stay(s).(latest := s.latest + 1)
    case _ => Stay(s)
  }

  ghost function Apply(cfg: Config, s: State, e: Event): (r: State)
    ensures Ticked(s, r)
  {
    if Begins(e) then (if e.c in s.calls then Stay(s) else Begin(cfg, s, e)) else Continue(cfg, s, e)
  }

  /** The state after a whole interleaving, starting from an empty Redis. */
  ghost function Run(cfg: Config, events: seq<Event>): (s: State)
    ensures |s.log| == |events|
  {
    if events == [] then Init()
    else
      var s := Run(cfg, events[..|events| - 1]);
      Apply(cfg, s, events[|events| - 1])
  }

  /** The state at instant `i` of a run. */
  ghost function At(cfg: Config, events: seq<Event>, i: nat): (s: State)
    requires i <= |events|
    ensures |s.log| == i
  {
    Run(cfg, events[..i])
  }

  lemma AtNext(cfg: Config, events: seq<Event>, i: nat)
    requires i < |events|
    ensures At(cfg, events, i + 1) == Apply(cfg, At(cfg, events, i), events[i])
  {
    hide Apply;
    assert events[..i + 1][..i] == events[..i];
  }
}
