/** The article documents and their index under interleaved creation, deletion, checkout and listing. */
module Catalogue {
  import opened Model
  import opened Stock
  import opened SortedSet
  import opened Redis
  import opened Linearize

  predicate IsDeindexing(s: State, c: nat, a: Id) {
    c in s.calls && s.calls[c] == Deindexing(a)
  }

  /** Every document is indexed; an index entry without document belongs to exactly one deletion under way. */
  ghost predicate IndexExact(s: State) {
    && s.store.articles.Keys <= s.store.articleIndex.Keys
    && (forall a | a in s.store.articleIndex && a !in s.store.articles :: exists c :: IsDeindexing(s, c, a))
    && (forall c, a | IsDeindexing(s, c, a) :: a in s.store.articleIndex && a !in s.store.articles)
    && (forall c, d, a | IsDeindexing(s, c, a) && IsDeindexing(s, d, a) :: c == d)
  }

  /** The write of an article update finds its article still stored. */
  predicate EditsStored(s: State, e: Event) {
    e.SaveEdit? && e.c in s.calls && s.calls[e.c].Editing? ==> s.calls[e.c].article in s.store.articles
  }

  lemma ExecKeepsArticleKeys(cfg: Config, s: State, e: Event)
    requires FreshReads(s) && e.Exec?
    ensures Apply(cfg, s, e).store.articles.Keys == s.store.articles.Keys
    ensures Apply(cfg, s, e).store.articleIndex == s.store.articleIndex
  {
    if CanExec(s, e.c, e.id) {
      var call := s.calls[e.c];
      if Clean(s.log, call.mark, KeySet(call.cart.lines)) && Take(Loaded(call.seen), call.cart.lines, e.now).Filled? {
        ReadsAreCurrent(s, call);
        WriteBackIsAtomic(Loaded(call.seen), s.store.articles, call.cart.lines, e.now);
        FilledStock(s.store.articles, call.cart.lines, e.now);
      }
    }
  }

  /** No checkout, however its reads interleave with deletions, brings a deleted article back or removes one. */
  lemma CheckoutResurrectsNothing(cfg: Config, events: seq<Event>, n: nat)
    requires n < |events| && events[n].Exec?
    ensures At(cfg, events, n + 1).store.articles.Keys == At(cfg, events, n).store.articles.Keys
  {
    hide Apply;
    AtNext(cfg, events, n);
    RunInv(cfg, events[..n]);
    ExecKeepsArticleKeys(cfg, At(cfg, events, n), events[n]);
  }

  lemma SameIndex(s: State, r: State)
    requires IndexExact(s)
    requires r.store.articles.Keys == s.store.articles.Keys && r.store.articleIndex.Keys == s.store.articleIndex.Keys
    requires forall c, a :: IsDeindexing(r, c, a) <==> IsDeindexing(s, c, a)
    ensures IndexExact(r)
  {
    forall a | a in r.store.articleIndex && a !in r.store.articles ensures exists c :: IsDeindexing(r, c, a) {
      assert a in s.store.articleIndex.Keys && a !in s.store.articles.Keys;
      var c :| IsDeindexing(s, c, a);
      assert IsDeindexing(r, c, a);
    }
    forall c, a | IsDeindexing(r, c, a) ensures a in r.store.articleIndex && a !in r.store.articles {
      assert IsDeindexing(s, c, a);
      assert a in r.store.articleIndex.Keys && a !in r.store.articles.Keys;
    }
    forall c, d, a | IsDeindexing(r, c, a) && IsDeindexing(r, d, a) ensures c == d {
      assert IsDeindexing(s, c, a) && IsDeindexing(s, d, a);
    }
  }

  lemma DeindexingMoves(cfg: Config, s: State, e: Event, c: nat, a: Id)
    requires !(e.BeginDelete? && e.c == c) && !(e.Proceed? && e.c == c)
    ensures IsDeindexing(Apply(cfg, s, e), c, a) <==> IsDeindexing(s, c, a)
  {
    OthersStay(cfg, s, e);
    assert Caller(e) != Some(c) ==> Lookup(Apply(cfg, s, e).calls, c) == Lookup(s.calls, c);
  }

  lemma ProceedKeepsIndex(cfg: Config, s: State, c: nat)
    requires IndexExact(s) && c in s.calls
    ensures IndexExact(Step(cfg, s, c, s.calls[c]))
  {
    var call, r := s.calls[c], Step(cfg, s, c, s.calls[c]);
    forall d, a ensures IsDeindexing(r, d, a) <==> IsDeindexing(s, d, a) && !(d == c && call.Deindexing?) {
      StepDeindexing(cfg, s, c, call, d, a);
    }
    StepIndex(cfg, s, c, call);
    if call.Deindexing? { DeindexedKeepsIndex(s, r, c, call.article); } else { SameIndex(s, r); }
  }

  lemma DeindexedKeepsIndex(s: State, r: State, c: nat, gone: Id)
    requires IndexExact(s) && IsDeindexing(s, c, gone)
    requires r.store.articles == s.store.articles && r.store.articleIndex == s.store.articleIndex - {gone}
    requires forall d, a :: IsDeindexing(r, d, a) <==> IsDeindexing(s, d, a) && d != c
    ensures IndexExact(r)
  {
    forall a | a in r.store.articleIndex && a !in r.store.articles ensures exists d :: IsDeindexing(r, d, a) {
      var d :| IsDeindexing(s, d, a);
      assert IsDeindexing(r, d, a);
    }
    forall d, a | IsDeindexing(r, d, a) ensures a in r.store.articleIndex && a !in r.store.articles {
      assert IsDeindexing(s, d, a);
    }
  }

  lemma StepDeindexing(cfg: Config, s: State, c: nat, call: Call, d: nat, a: Id)
    requires c in s.calls && s.calls[c] == call
    ensures IsDeindexing(Step(cfg, s, c, call), d, a) <==> IsDeindexing(s, d, a) && !(d == c && call.Deindexing?)
  {
  }

  lemma StepIndex(cfg: Config, s: State, c: nat, call: Call)
    ensures Step(cfg, s, c, call).store.articles == s.store.articles
    ensures Step(cfg, s, c, call).store.articleIndex ==
      if call.Deindexing? then s.store.articleIndex - {call.article} else s.store.articleIndex
  {
  }

  lemma DeleteKeepsIndex(cfg: Config, s: State, e: Event)
    requires IndexExact(s) && e.BeginDelete?
    ensures IndexExact(Apply(cfg, s, e))
  {
    var r := Apply(cfg, s, e);
    forall d: nat, a: Id ensures IsDeindexing(r, d, a) <==>
      IsDeindexing(s, d, a) || (d == e.c && a == e.id && e.c !in s.calls && e.id in s.store.articles)
    {
    }
    forall a | a in r.store.articleIndex && a !in r.store.articles ensures exists d :: IsDeindexing(r, d, a) {
      if a in s.store.articles { assert IsDeindexing(r, e.c, a); }
      else { var d :| IsDeindexing(s, d, a); assert IsDeindexing(r, d, a); }
    }
  }

  lemma AddKeepsIndex(cfg: Config, s: State, e: Event)
    requires IndexExact(s) && e.AddArticle?
    ensures IndexExact(Apply(cfg, s, e))
  {
    var r := Apply(cfg, s, e);
    forall c, a ensures IsDeindexing(r, c, a) <==> IsDeindexing(s, c, a) { DeindexingMoves(cfg, s, e, c, a); }
    if r.store == s.store { SameIndex(s, r); } else { AddedKeepsIndex(s, r, e.id); }
  }

  lemma AddedKeepsIndex(s: State, r: State, added: Id)
    requires IndexExact(s) && added !in s.store.articles && added !in s.store.articleIndex
    requires r.store.articles.Keys == s.store.articles.Keys + {added}
    requires r.store.articleIndex.Keys == s.store.articleIndex.Keys + {added}
    requires forall c, a :: IsDeindexing(r, c, a) <==> IsDeindexing(s, c, a)
    ensures IndexExact(r)
  {
    forall a | a in r.store.articleIndex && a !in r.store.articles ensures exists c :: IsDeindexing(r, c, a) {
      assert a in r.store.articleIndex.Keys && a !in r.store.articles.Keys;
      var c :| IsDeindexing(s, c, a);
      assert IsDeindexing(r, c, a);
    }
    forall c, a | IsDeindexing(r, c, a) ensures a in r.store.articleIndex && a !in r.store.articles {
      assert IsDeindexing(s, c, a);
      assert a in r.store.articleIndex.Keys && a !in r.store.articles.Keys;
    }
  }

  lemma OtherEventsKeepIndex(cfg: Config, s: State, e: Event)
    requires IndexExact(s) && FreshReads(s) && EditsStored(s, e)
    requires !e.Proceed? && !e.BeginDelete? && !e.AddArticle?
    ensures IndexExact(Apply(cfg, s, e))
  {
    var r := Apply(cfg, s, e);
    forall c, a ensures IsDeindexing(r, c, a) <==> IsDeindexing(s, c, a) { DeindexingMoves(cfg, s, e, c, a); }
    if e.Exec? { ExecKeepsArticleKeys(cfg, s, e); } else { OthersKeepKeys(cfg, s, e); }
    SameIndex(s, r);
  }

  lemma OthersKeepKeys(cfg: Config, s: State, e: Event)
    requires EditsStored(s, e) && !e.Proceed? && !e.BeginDelete? && !e.AddArticle? && !e.Exec?
    ensures Apply(cfg, s, e).store.articles.Keys == s.store.articles.Keys
    ensures Apply(cfg, s, e).store.articleIndex == s.store.articleIndex
  {
    hide RevRange, FreshArticle, EndAttempt, Step;
    match e
    case SaveEdit(c, name, quantity, price, now) =>
      if c in s.calls && s.calls[c].Editing? {
        var a := s.calls[c].article;
        assert s.store.articles[a := Edited(s.calls[c].loaded, name, quantity, price, now)].Keys ==
          s.store.articles.Keys + {a};
      }
    case _ =>
  }

  /** An article update keeps the index exact exactly when its article was not deleted since it was read. */
  lemma EditKeepsIndexIff(cfg: Config, s: State, e: Event)
    requires IndexExact(s) && FreshReads(s) && e.SaveEdit?
    ensures IndexExact(Apply(cfg, s, e)) <==> EditsStored(s, e)
  {
    if EditsStored(s, e) {
      OtherEventsKeepIndex(cfg, s, e);
    } else {
      var a, r := s.calls[e.c].article, Apply(cfg, s, e);
      assert a in r.store.articles;
      if a in s.store.articleIndex {
        var c :| IsDeindexing(s, c, a);
        DeindexingMoves(cfg, s, e, c, a);
      }
    }
  }

  /** In every state of every interleaving whose article updates find their article, documents and index agree
      up to the deletions under way (or cut short by a crash) between their two commands. */
  lemma {:induction false} IndexStaysExact(cfg: Config, events: seq<Event>)
    requires forall i | 0 <= i < |events| :: EditsStored(At(cfg, events, i), events[i])
    ensures IndexExact(Run(cfg, events))
  {
    hide Apply;
    if events == [] {
    } else {
      var n := |events| - 1;
      var s, e := Run(cfg, events[..n]), events[n];
      forall i | 0 <= i < n ensures EditsStored(At(cfg, events[..n], i), events[..n][i]) {
        assert events[..n][..i] == events[..i];
        assert EditsStored(At(cfg, events, i), events[i]);
      }
      IndexStaysExact(cfg, events[..n]);
      RunInv(cfg, events[..n]);
      assert EditsStored(At(cfg, events, n), events[n]);
      EventKeepsIndex(cfg, s, e);
    }
  }

  lemma EventKeepsIndex(cfg: Config, s: State, e: Event)
    requires IndexExact(s) && FreshReads(s) && EditsStored(s, e)
    ensures IndexExact(Apply(cfg, s, e))
  {
    if e.Proceed? { if e.c in s.calls { ProceedKeepsIndex(cfg, s, e.c); } else { SameIndex(s, Stay(s)); } }
    else if e.BeginDelete? { DeleteKeepsIndex(cfg, s, e); }
    else if e.AddArticle? { AddKeepsIndex(cfg, s, e); }
    else { OtherEventsKeepIndex(cfg, s, e); }
  }

  // ---------- articles.List ----------

  lemma {:induction false} ListingReadTheIndex(cfg: Config, events: seq<Event>, c: nat)
    requires c in Run(cfg, events).calls && Run(cfg, events).calls[c].Listing?
    ensures var call := Run(cfg, events).calls[c];
      call.start < |events| && call.ids == RevRange(At(cfg, events, call.start).store.articleIndex)
  {
    hide Apply;
    var n := |events| - 1;
    var s, e, call := Run(cfg, events[..n]), events[n], Run(cfg, events).calls[c];
    OthersStay(cfg, s, e);
    if Caller(e) == Some(c) { ListingMoves(cfg, s, e, c); } else { assert Lookup(s.calls, c) == Some(call); }
    if c in s.calls {
      ListingReadTheIndex(cfg, events[..n], c);
      assert events[..n][..call.start] == events[..call.start];
    }
  }

  lemma ListingMoves(cfg: Config, s: State, e: Event, c: nat)
    requires Caller(e) == Some(c) && c in Apply(cfg, s, e).calls && Apply(cfg, s, e).calls[c].Listing?
    ensures c in s.calls ==> s.calls[c] == Apply(cfg, s, e).calls[c]
    ensures c !in s.calls ==> Apply(cfg, s, e).calls[c] == Listing(|s.log|, RevRange(s.store.articleIndex))
  {
    hide Step, RevRange;
    match e
    case Proceed(_) => if c in s.calls { StepNotListing(cfg, s, c, s.calls[c]); }
    case _ =>
  }

  lemma StepNotListing(cfg: Config, s: State, c: nat, call: Call)
    requires c in s.calls && s.calls[c] == call
    ensures !Step(cfg, s, c, call).calls[c].Listing?
  {
  }

  lemma ExistingKeepsOrder(z: ZSet, ids: seq<Id>, articles: map<Id, Article>)
    requires Descending(z, ids)
    ensures Descending(z, Existing(ids, articles))
  {
    if ids == [] {
    } else {
      var rest := Existing(ids[1..], articles);
      forall i, j | 0 <= i < j < |ids[1..]| ensures ids[1..][i] != ids[1..][j] && Ahead(z, ids[1..][i], ids[1..][j]) {
        assert ids[1..][i] == ids[i + 1] && ids[1..][j] == ids[j + 1];
      }
      forall a | a in ids[1..] ensures a in ids {}
      ExistingKeepsOrder(z, ids[1..], articles);
      var all := Existing(ids, articles);
      if ids[0] in articles {
        assert all == [ids[0]] + rest;
        forall i, j | 0 <= i < j < |all| ensures all[i] != all[j] && Ahead(z, all[i], all[j]) {
          assert all[j] == rest[j - 1] && rest[j - 1] in rest;
          if i == 0 { var k :| 0 <= k < |ids[1..]| && ids[1..][k] == all[j]; assert ids[k + 1] == all[j]; }
          else { assert all[i] == rest[i - 1]; }
        }
      } else {
        assert all == rest;
      }
    }
  }

  /** A listing in two commands, interleaved with anything: every row existed when the documents were read and rows come
      newest first by the index it read. Every article stored at both instants is listed, unless an update brought back
      a deleted article before the index was read. */
  lemma ListingIsAccurate(cfg: Config, events: seq<Event>, n: nat, c: nat)
    requires n < |events| && events[n] == Proceed(c)
    requires c in At(cfg, events, n).calls && At(cfg, events, n).calls[c].Listing?
    ensures c in At(cfg, events, n + 1).calls && At(cfg, events, n + 1).calls[c].Listed?
    ensures var Listed(start, rows) := At(cfg, events, n + 1).calls[c];
      && start < n
      && (forall a | a in rows :: a in At(cfg, events, n).store.articles)
      && Descending(At(cfg, events, start).store.articleIndex, rows)
      && ((forall i | 0 <= i < start :: EditsStored(At(cfg, events, i), events[i])) ==>
            forall a | a in At(cfg, events, start).store.articles && a in At(cfg, events, n).store.articles ::
              a in rows)
  {
    hide Apply;
    AtNext(cfg, events, n);
    ListingEnds(cfg, At(cfg, events, n), c);
    ListingBegan(cfg, events, n, c);
    var call := At(cfg, events, n).calls[c];
    if forall i | 0 <= i < call.start :: EditsStored(At(cfg, events, i), events[i]) {
      EarlierIndexExact(cfg, events, call.start);
    }
    RowsOfListing(At(cfg, events, call.start), At(cfg, events, n), call.ids);
  }

  lemma ListingEnds(cfg: Config, s: State, c: nat)
    requires c in s.calls && s.calls[c].Listing?
    ensures Lookup(Apply(cfg, s, Proceed(c)).calls, c) ==
      Some(Listed(s.calls[c].start, Existing(s.calls[c].ids, s.store.articles)))
  {
  }

  lemma ListingBegan(cfg: Config, events: seq<Event>, n: nat, c: nat)
    requires n <= |events| && c in At(cfg, events, n).calls && At(cfg, events, n).calls[c].Listing?
    ensures var Listing(start, ids) := At(cfg, events, n).calls[c];
      start < n && ids == RevRange(At(cfg, events, start).store.articleIndex)
  {
    hide Apply;
    ListingReadTheIndex(cfg, events[..n], c);
    var start := At(cfg, events, n).calls[c].start;
    assert events[..n][..start] == events[..start];
  }

  lemma EarlierIndexExact(cfg: Config, events: seq<Event>, m: nat)
    requires m <= |events| && forall i | 0 <= i < m :: EditsStored(At(cfg, events, i), events[i])
    ensures IndexExact(At(cfg, events, m))
  {
    hide Apply;
    forall i | 0 <= i < m ensures EditsStored(At(cfg, events[..m], i), events[..m][i]) {
      assert events[..m][..i] == events[..i];
      assert EditsStored(At(cfg, events, i), events[i]);
    }
    IndexStaysExact(cfg, events[..m]);
  }

  lemma RowsOfListing(s: State, t: State, ids: seq<Id>)
    requires ids == RevRange(s.store.articleIndex)
    ensures var rows := Existing(ids, t.store.articles);
      && (IndexExact(s) ==> forall a | a in s.store.articles && a in t.store.articles :: a in rows)
      && Descending(s.store.articleIndex, rows)
  {
    RevRangeSorted(s.store.articleIndex);
    ExistingKeepsOrder(s.store.articleIndex, ids, t.store.articles);
    if IndexExact(s) {
      forall a | a in s.store.articles ensures a in ids { assert a in s.store.articles.Keys; }
    }
  }
}
