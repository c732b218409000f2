/** Article documents over their lives: the stable listing order, and what an unwatched update overwrites. */
module Documents {
  import opened Model
  import opened Stock
  import opened SortedSet
  import opened Redis
  import opened Linearize
  import opened Runs
  import Catalogue

  // ---------- an article has one creation time, and its index entry keeps it ----------

  predicate IsEditing(s: State, c: nat, a: Id, created: int) {
    c in s.calls && s.calls[c].Editing? && s.calls[c].article == a && s.calls[c].loaded.created == created
  }

  /** A document of `a` with this creation time is stored, or about to be written back. */
  ghost predicate Born(s: State, a: Id, created: int) {
    (a in s.store.articles && s.store.articles[a].created == created) || exists c :: IsEditing(s, c, a, created)
  }

  ghost predicate OneBirth(cfg: Config, s: State) {
    && (forall a, x, y | Born(s, a, x) && Born(s, a, y) :: x == y)
    && (forall a, x | Born(s, a, x) && a in s.store.articleIndex :: s.store.articleIndex[a] == cfg.score(x))
  }

  ghost predicate Adds(s: State, e: Event, a: Id) {
    e.AddArticle? && e.id == a && e.c !in s.calls && FreshArticle(s, a)
  }

  lemma NotBornBefore(s: State, a: Id, x: int)
    requires FreshArticle(s, a)
    ensures !Born(s, a, x)
  {
    if c :| IsEditing(s, c, a, x) { assert Mentioned(s.calls[c], a); }
  }

  /** An update under way holds the document it read when it began. */
  lemma EditMoves(cfg: Config, s: State, e: Event, c: nat)
    requires Caller(e) == Some(c) && c in Apply(cfg, s, e).calls && Apply(cfg, s, e).calls[c].Editing?
    ensures c in s.calls ==> s.calls[c] == Apply(cfg, s, e).calls[c]
    ensures c !in s.calls ==>
      e.BeginEdit? && e.id in s.store.articles && Apply(cfg, s, e).calls[c] == Editing(e.id, s.store.articles[e.id])
  {
    hide Step, RevRange;
    match e
    case Proceed(_) => if c in s.calls { StepNotEditing(cfg, s, c, s.calls[c]); }
    case _ =>
  }

  lemma StepNotEditing(cfg: Config, s: State, c: nat, call: Call)
    requires c in s.calls && s.calls[c] == call
    ensures Step(cfg, s, c, call).calls[c].Editing? ==> Step(cfg, s, c, call) == Stay(s)
  {
  }

  lemma EditingBefore(cfg: Config, s: State, e: Event, c: nat, a: Id, x: int)
    requires IsEditing(Apply(cfg, s, e), c, a, x)
    ensures Born(s, a, x)
  {
    hide Apply;
    OthersStay(cfg, s, e);
    if Caller(e) == Some(c) {
      EditMoves(cfg, s, e, c);
    } else {
      assert Lookup(Apply(cfg, s, e).calls, c) == Lookup(s.calls, c);
    }
    assert c in s.calls ==> IsEditing(s, c, a, x);
  }

  lemma StoredBefore(cfg: Config, s: State, e: Event, a: Id)
    requires Inv(s) && a in Apply(cfg, s, e).store.articles
    ensures var x := Apply(cfg, s, e).store.articles[a].created;
      Born(s, a, x) || (Adds(s, e, a) && x == e.value.created)
  {
    hide Apply;
    EventRefines(cfg, s, e);
    match OpOf(s, e)
    case Place(_, lines, _, _, now) => if Take(s.store.articles, lines, now).Filled? {
      FilledStock(s.store.articles, lines, now);
    }
    case PutArticle(b, value) => if a == b && e.SaveEdit? { assert IsEditing(s, e.c, a, value.created); }
    case _ =>
  }

  lemma BornBefore(cfg: Config, s: State, e: Event, a: Id, x: int)
    requires Inv(s) && Born(Apply(cfg, s, e), a, x)
    ensures Born(s, a, x) || (Adds(s, e, a) && x == e.value.created)
  {
    hide Apply;
    var r := Apply(cfg, s, e);
    if a in r.store.articles && r.store.articles[a].created == x {
      StoredBefore(cfg, s, e, a);
    } else {
      var c :| IsEditing(r, c, a, x);
      EditingBefore(cfg, s, e, c, a, x);
    }
  }

  lemma IndexMoves(cfg: Config, s: State, e: Event, a: Id)
    requires a in Apply(cfg, s, e).store.articleIndex
    ensures if Adds(s, e, a) then Apply(cfg, s, e).store.articleIndex[a] == cfg.score(e.value.created)
      else a in s.store.articleIndex && Apply(cfg, s, e).store.articleIndex[a] == s.store.articleIndex[a]
  {
    hide Apply, Step;
    EventEffect(cfg, s, e);
    if e.Proceed? && e.c in s.calls { Catalogue.StepIndex(cfg, s, e.c, s.calls[e.c]); }
  }

  lemma OneBirthStep(cfg: Config, s: State, e: Event)
    requires Inv(s) && OneBirth(cfg, s)
    ensures OneBirth(cfg, Apply(cfg, s, e))
  {
    hide Apply;
    var r := Apply(cfg, s, e);
    forall a, x, y | Born(r, a, x) && Born(r, a, y) ensures x == y {
      BornBefore(cfg, s, e, a, x);
      BornBefore(cfg, s, e, a, y);
      if Adds(s, e, a) { NotBornBefore(s, a, x); NotBornBefore(s, a, y); }
    }
    forall a, x | Born(r, a, x) && a in r.store.articleIndex ensures r.store.articleIndex[a] == cfg.score(x) {
      BornBefore(cfg, s, e, a, x);
      IndexMoves(cfg, s, e, a);
      if Adds(s, e, a) { NotBornBefore(s, a, x); }
    }
  }

  /** In every state of every interleaving, all documents of an article agree on its creation time, stale ones
      included, and its index score is that time's. */
  lemma {:induction false} CreationTimesStay(cfg: Config, events: seq<Event>)
    ensures OneBirth(cfg, Run(cfg, events))
  {
    hide Apply;
    if events == [] {
    } else {
      var n := |events| - 1;
      CreationTimesStay(cfg, events[..n]);
      RunInv(cfg, events[..n]);
      OneBirthStep(cfg, Run(cfg, events[..n]), events[n]);
    }
  }

  /** The scores a listing read are still those of the documents. */
  ghost predicate ScoresHold(cfg: Config, index: ZSet, ids: seq<Id>, s: State) {
    forall a, x | a in ids && Born(s, a, x) :: a in index && index[a] == cfg.score(x)
  }

  lemma ScoresHoldStep(cfg: Config, s: State, e: Event, c: nat, index: ZSet)
    requires Inv(s) && c in s.calls && s.calls[c].Listing? && ScoresHold(cfg, index, s.calls[c].ids, s)
    ensures ScoresHold(cfg, index, s.calls[c].ids, Apply(cfg, s, e))
  {
    hide Apply;
    forall a, x | a in s.calls[c].ids && Born(Apply(cfg, s, e), a, x) ensures a in index && index[a] == cfg.score(x) {
      BornBefore(cfg, s, e, a, x);
      assert Adds(s, e, a) ==> Mentioned(s.calls[c], a);
    }
  }

  lemma {:induction false} ListedScoresHold(cfg: Config, events: seq<Event>, c: nat)
    requires c in Run(cfg, events).calls && Run(cfg, events).calls[c].Listing?
    ensures var Listing(start, ids) := Run(cfg, events).calls[c];
      start < |events| && ids == RevRange(At(cfg, events, start).store.articleIndex)
      && ScoresHold(cfg, At(cfg, events, start).store.articleIndex, ids, Run(cfg, events))
  {
    hide Apply, RevRange;
    var n := |events| - 1;
    var s, e, call := Run(cfg, events[..n]), events[n], Run(cfg, events).calls[c];
    OthersStay(cfg, s, e);
    if Caller(e) == Some(c) { Catalogue.ListingMoves(cfg, s, e, c); } else { assert Lookup(s.calls, c) == Some(call); }
    RunInv(cfg, events[..n]);
    if c in s.calls {
      ListedScoresHold(cfg, events[..n], c);
      assert events[..n][..call.start] == events[..call.start];
      ScoresHoldStep(cfg, s, e, c, At(cfg, events, call.start).store.articleIndex);
    } else {
      ListingBegins(cfg, events[..n], e, c);
    }
  }

  lemma ListingBegins(cfg: Config, before: seq<Event>, e: Event, c: nat)
    requires var s := Run(cfg, before); var r := Apply(cfg, s, e);
      c !in s.calls && Caller(e) == Some(c) && c in r.calls && r.calls[c].Listing?
    ensures var s := Run(cfg, before);
      ScoresHold(cfg, s.store.articleIndex, RevRange(s.store.articleIndex), Apply(cfg, s, e))
  {
    hide Apply;
    var s := Run(cfg, before);
    CreationTimesStay(cfg, before);
    RunInv(cfg, before);
    forall a, x | a in RevRange(s.store.articleIndex) && Born(Apply(cfg, s, e), a, x)
      ensures s.store.articleIndex[a] == cfg.score(x)
    {
      BornBefore(cfg, s, e, a, x);
    }
  }

  /** In every interleaving, updates included, the rows of a listing come newest first by the creation times of the
      documents returned, up to the rounding of scores. */
  lemma ListingNewestFirst(cfg: Config, events: seq<Event>, n: nat, c: nat)
    requires n < |events| && events[n] == Proceed(c)
    requires c in At(cfg, events, n).calls && At(cfg, events, n).calls[c].Listing?
    ensures c in At(cfg, events, n + 1).calls && At(cfg, events, n + 1).calls[c].Listed?
    ensures var docs, rows := At(cfg, events, n).store.articles, At(cfg, events, n + 1).calls[c].rows;
      forall i, j | 0 <= i < j < |rows| ::
        rows[i] != rows[j] && rows[i] in docs && rows[j] in docs &&
          cfg.score(docs[rows[i]].created) >= cfg.score(docs[rows[j]].created)
  {
    hide Apply, RevRange, Existing;
    AtNext(cfg, events, n);
    var s := At(cfg, events, n);
    Catalogue.ListingEnds(cfg, s, c);
    ListedScoresHold(cfg, events[..n], c);
    var ids := s.calls[c].ids;
    var index := At(cfg, events[..n], s.calls[c].start).store.articleIndex;
    RevRangeSorted(index);
    Catalogue.ExistingKeepsOrder(index, ids, s.store.articles);
    var rows := Existing(ids, s.store.articles);
    forall a | a in rows ensures index[a] == cfg.score(s.store.articles[a].created) {
      assert Born(s, a, s.store.articles[a].created);
    }
  }

  // ---------- articles.Update: the PostgreSQL statement and the two Redis commands ----------

  function NullIf(x: string, y: string): Option<string> {
    if x == y then None else Some(x)
  }

  function Coalesce<T>(x: Option<T>, y: T): T {
    if x.Some? then x.value else y
  }

  /** The UPDATE statement on the stored row; without a row it changes nothing. */
  function Updated(articles: map<Id, Article>, a: Id, name: string, quantity: Option<int>, price: Option<real>,
      now: int): map<Id, Article> {
    if a !in articles then articles
    else
      var row := articles[a];
      articles[a := Article(Coalesce(NullIf(name, ""), row.name), Coalesce(quantity, row.quantity),
                            Coalesce(price, row.price), row.created, now)]
  }

  /** The stored article agrees with the one read before on every field the update leaves alone. */
  predicate NothingOverwritten(articles: map<Id, Article>, a: Id, loaded: Article, name: string,
      quantity: Option<int>, price: Option<real>) {
    && a in articles
    && (name == "" ==> articles[a].name == loaded.name)
    && (quantity == None ==> articles[a].quantity == loaded.quantity)
    && (price == None ==> articles[a].price == loaded.price)
  }

  lemma SavedIsUpdatedIff(articles: map<Id, Article>, a: Id, loaded: Article, name: string, quantity: Option<int>,
      price: Option<real>, now: int)
    requires a in articles ==> loaded.created == articles[a].created
    ensures articles[a := Edited(loaded, name, quantity, price, now)] ==
      Updated(articles, a, name, quantity, price, now)
      <==> NothingOverwritten(articles, a, loaded, name, quantity, price)
  {
    var saved := articles[a := Edited(loaded, name, quantity, price, now)];
    var row := Updated(articles, a, name, quantity, price, now);
    if a in articles { assert saved == row <==> saved[a] == row[a]; } else { assert a in saved; }
  }

  /** The unwatched Redis update has the effect of the PostgreSQL statement exactly when nothing it leaves alone
      changed, and the article was not deleted, since it was read. */
  lemma EditMirrorsUpdateIff(cfg: Config, events: seq<Event>, n: nat)
    requires n < |events| && events[n].SaveEdit?
    requires var c := events[n].c; c in At(cfg, events, n).calls && At(cfg, events, n).calls[c].Editing?
    ensures var s, e := At(cfg, events, n), events[n]; var Editing(a, loaded) := s.calls[e.c];
      At(cfg, events, n + 1).store.articles == Updated(s.store.articles, a, e.name, e.quantity, e.price, e.now)
      <==> NothingOverwritten(s.store.articles, a, loaded, e.name, e.quantity, e.price)
  {
    hide Apply;
    var s, e := At(cfg, events, n), events[n];
    var Editing(a, loaded) := s.calls[e.c];
    AtNext(cfg, events, n);
    CreationTimesStay(cfg, events[..n]);
    assert IsEditing(s, e.c, a, loaded.created) && Born(s, a, loaded.created);
    assert a in s.store.articles ==> Born(s, a, s.store.articles[a].created);
    SaveWrites(cfg, s, e);
    SavedIsUpdatedIff(s.store.articles, a, loaded, e.name, e.quantity, e.price, e.now);
  }

  lemma SaveWrites(cfg: Config, s: State, e: Event)
    requires e.SaveEdit? && e.c in s.calls && s.calls[e.c].Editing?
    ensures var Editing(a, loaded) := s.calls[e.c];
      && Apply(cfg, s, e).store ==
        s.store.(articles := s.store.articles[a := Edited(loaded, e.name, e.quantity, e.price, e.now)])
      && Apply(cfg, s, e).calls == s.calls[e.c := Finished(Done)]
  {
  }

  /** A deletion running alone removes document and index entry; of a missing article it says so and changes nothing. */
  lemma DeletionAlone(cfg: Config, s: State, c: nat, a: Id)
    requires c !in s.calls
    ensures var r := After(cfg, s, [BeginDelete(c, a)] + [Proceed(c)]);
      if a !in s.store.articles then Lookup(r.calls, c) == Some(Finished(NotFound)) && r.store == s.store
      else
        && Lookup(r.calls, c) == Some(Finished(Done))
        && r.store == s.store.(articles := s.store.articles - {a}, articleIndex := s.store.articleIndex - {a})
  {
    hide After;
    AfterCons(cfg, s, BeginDelete(c, a), [Proceed(c)]);
    AfterOne(cfg, Apply(cfg, s, BeginDelete(c, a)), Proceed(c));
  }

  /** An update running alone is the PostgreSQL statement; of a missing article it says so and changes nothing. */
  lemma EditAlone(cfg: Config, s: State, e: Event, a: Id)
    requires e.SaveEdit? && e.c !in s.calls
    ensures var r := After(cfg, s, [BeginEdit(e.c, a)] + [e]);
      && Lookup(r.calls, e.c) == Some(Finished(if a in s.store.articles then Done else NotFound))
      && r.store == s.store.(articles := Updated(s.store.articles, a, e.name, e.quantity, e.price, e.now))
  {
    hide After, Apply;
    var s1 := Apply(cfg, s, BeginEdit(e.c, a));
    AfterCons(cfg, s, BeginEdit(e.c, a), [e]);
    AfterOne(cfg, s1, e);
    EditFirst(cfg, s, e.c, a);
    if a in s.store.articles {
      SaveWrites(cfg, s1, e);
      SavedIsUpdatedIff(s.store.articles, a, s.store.articles[a], e.name, e.quantity, e.price, e.now);
    } else {
      SaveAfterEnd(cfg, s1, e);
    }
  }

  lemma EditFirst(cfg: Config, s: State, c: nat, a: Id)
    requires c !in s.calls
    ensures Apply(cfg, s, BeginEdit(c, a)) ==
      Move(s, c, if a in s.store.articles then Editing(a, s.store.articles[a]) else Finished(NotFound))
  {
  }

  lemma SaveAfterEnd(cfg: Config, s: State, e: Event)
    requires e.SaveEdit? && e.c in s.calls && s.calls[e.c].Finished?
    ensures Apply(cfg, s, e) == Stay(s)
  {
  }

  /** A new article is stored and indexed by its creation time. */
  lemma CreationAlone(cfg: Config, s: State, c: nat, a: Id, value: Article)
    requires c !in s.calls && FreshArticle(s, a)
    ensures var r := Apply(cfg, s, AddArticle(c, a, value));
      && Lookup(r.calls, c) == Some(Finished(Done))
      && r.store == s.store.(articles := s.store.articles[a := value],
                             articleIndex := s.store.articleIndex[a := cfg.score(value.created)])
  {
    hide FreshArticle;
  }

  /** While nothing writes the article, an update under way still holds the stored document. */
  lemma {:induction false} EditStaysCurrent(cfg: Config, events: seq<Event>, b: nat, m: nat)
    requires b < m <= |events| && events[b].BeginEdit? && events[b].c !in At(cfg, events, b).calls
    requires events[b].c in At(cfg, events, m).calls && At(cfg, events, m).calls[events[b].c].Editing?
    requires Unwritten(At(cfg, events, m).log, b + 1, events[b].id)
    ensures var a, articles := events[b].id, At(cfg, events, m).store.articles;
      a in articles && At(cfg, events, m).calls[events[b].c] == Editing(a, articles[a])
    decreases m
  {
    hide Apply;
    var c, s, e := events[b].c, At(cfg, events, m - 1), events[m - 1];
    AtNext(cfg, events, m - 1);
    OthersStay(cfg, s, e);
    if Caller(e) == Some(c) { EditMoves(cfg, s, e, c); }
    else { assert Lookup(At(cfg, events, m).calls, c) == Lookup(s.calls, c); }
    if m - 1 == b {
      BeginEditWritesNothing(cfg, s, e);
    } else {
      StillCalled(cfg, events, b, m - 1);
      assert Unwritten(s.log, b + 1, events[b].id) by {
        forall i | b < i < |s.log| ensures s.log[i] == At(cfg, events, m).log[i] {}
      }
      EditStaysCurrent(cfg, events, b, m - 1);
      WritesAreLogged(cfg, s, e, events[b].id);
    }
  }

  lemma EditCalls(cfg: Config, s: State, e: Event)
    requires e.BeginEdit?
    ensures e.c in Apply(cfg, s, e).calls
  {
  }

  lemma {:induction false} StillCalled(cfg: Config, events: seq<Event>, b: nat, m: nat)
    requires b < m <= |events| && events[b].BeginEdit?
    ensures events[b].c in At(cfg, events, m).calls
    decreases m
  {
    hide Apply;
    if b < m - 1 { StillCalled(cfg, events, b, m - 1); }
    AtNext(cfg, events, m - 1);
    if b == m - 1 { EditCalls(cfg, At(cfg, events, b), events[b]); }
    OthersStay(cfg, At(cfg, events, m - 1), events[m - 1]);
  }

  lemma BeginEditWritesNothing(cfg: Config, s: State, e: Event)
    requires e.BeginEdit?
    ensures Apply(cfg, s, e).store == s.store
  {
  }

  /** An update during which nobody wrote the article is atomic, and loses nothing. */
  lemma UndisturbedEditIsAtomic(cfg: Config, events: seq<Event>, b: nat, n: nat)
    requires b < n < |events| && events[b].BeginEdit? && events[b].c !in At(cfg, events, b).calls
    requires events[n].SaveEdit? && events[n].c == events[b].c
    requires events[n].c in At(cfg, events, n).calls && At(cfg, events, n).calls[events[n].c].Editing?
    requires Unwritten(At(cfg, events, n).log, b + 1, events[b].id)
    ensures var e := events[n];
      At(cfg, events, n + 1).store.articles ==
        Updated(At(cfg, events, n).store.articles, events[b].id, e.name, e.quantity, e.price, e.now)
  {
    hide Apply;
    EditStaysCurrent(cfg, events, b, n);
    EditMirrorsUpdateIff(cfg, events, n);
  }
}
