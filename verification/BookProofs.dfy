// What LocalOrderBooks' tables promise: the reverse, XRP and token tables
// follow the books, and how the incremental and batch builds compare.

module BookProofs {
  import opened Prelude
  import opened LedgerObjects
  import opened BookTables

  // ---- Coherence, kept by every run ----

  ghost predicate OpenCoherent(fwd: map<Asset, set<Asset>>, rev: map<Asset, set<Asset>>, xrp: set<Asset>) {
    && Tidy(fwd) && Tidy(rev)
    && (forall i, o :: Has(fwd, i, o) <==> Has(rev, o, i))
    && (forall i :: i in xrp <==> Has(fwd, i, Xrp))
  }

  ghost predicate DomainCoherent(fwd: map<(Asset, Domain), set<Asset>>, rev: map<(Asset, Domain), set<Asset>>,
                                 xrp: set<(Asset, Domain)>)
  {
    && Tidy(fwd) && Tidy(rev)
    && (forall i, o, d: Domain :: Has(fwd, (i, d), o) <==> Has(rev, (o, d), i))
    && (forall i, d: Domain :: (i, d) in xrp <==> Has(fwd, (i, d), Xrp))
  }

  /** Some open book pays an asset of token k and gets o. */
  ghost predicate TokenPays(fwd: map<Asset, set<Asset>>, k: Token, o: Asset) {
    exists i :: TokenOf(i) == k && Has(fwd, i, o)
  }

  /** Some open book pays i and gets an asset of token k. */
  ghost predicate TokenGets(fwd: map<Asset, set<Asset>>, k: Token, i: Asset) {
    exists o :: TokenOf(o) == k && Has(fwd, i, o)
  }

  ghost predicate TokensSound(t: Tables) {
    && Tidy(t.tokenFwd) && Tidy(t.tokenRev)
    && (forall k, o :: Has(t.tokenFwd, k, o) ==> TokenPays(t.allBooks, k, o))
    && (forall k, i :: Has(t.tokenRev, k, i) ==> TokenGets(t.allBooks, k, i))
  }

  ghost predicate TokensComplete(t: Tables) {
    && (forall k, o :: TokenPays(t.allBooks, k, o) ==> Has(t.tokenFwd, k, o))
    && (forall k, i :: TokenGets(t.allBooks, k, i) ==> Has(t.tokenRev, k, i))
  }

  ghost predicate HasExactBook(t: Tables, b: Book) {
    match b.domain
    case None => Has(t.allBooks, b.pays, b.gets)
    case Some(d) => Has(t.domainBooks, (b.pays, d), b.gets)
  }

  ghost predicate RowsTidy(m: map<Token, map<Asset, Quality>>) {
    forall k :: k in m ==> m[k] != map[]
  }

  ghost predicate TipsBacked(t: Tables) {
    && (forall b :: b in t.tip ==> HasExactBook(t, b))
    && RowsTidy(t.tokenTip)
  }

  ghost predicate Coherent(t: Tables) {
    && OpenCoherent(t.allBooks, t.reverseBooks, t.xrpBooks)
    && DomainCoherent(t.domainBooks, t.reverseDomainBooks, t.xrpDomainBooks)
    && TokensSound(t)
    && TipsBacked(t)
  }

  lemma AddBookTokens(t: Tables, b: Book)
    requires TokensSound(t) && b.domain.None? && Tidy(t.allBooks)
    ensures TokensSound(AddBook(t, b))
    ensures TokensComplete(t) ==> TokensComplete(AddBook(t, b))
  {
    var u := AddBook(t, b);
    InsertedPair(t.allBooks, b.pays, b.gets);
    InsertedPair(t.tokenFwd, TokenOf(b.pays), b.gets);
    InsertedPair(t.tokenRev, TokenOf(b.gets), b.pays);
    forall k, o | Has(u.tokenFwd, k, o)
      ensures TokenPays(u.allBooks, k, o)
    {
      var i :| TokenOf(i) == k && (Has(t.allBooks, i, o) || (i == b.pays && o == b.gets));
      assert Has(u.allBooks, i, o);
    }
    forall k, i | Has(u.tokenRev, k, i)
      ensures TokenGets(u.allBooks, k, i)
    {
      var o :| TokenOf(o) == k && (Has(t.allBooks, i, o) || (i == b.pays && o == b.gets));
      assert Has(u.allBooks, i, o);
    }
  }

  lemma AddBookCoherent(t: Tables, b: Book)
    requires Coherent(t)
    ensures Coherent(AddBook(t, b)) && HasExactBook(AddBook(t, b), b)
    ensures TokensComplete(t) ==> TokensComplete(AddBook(t, b))
  {
    match b.domain
    case Some(d) =>
      InsertedPair(t.domainBooks, (b.pays, d), b.gets);
      InsertedPair(t.reverseDomainBooks, (b.gets, d), b.pays);
    case None =>
      InsertedPair(t.allBooks, b.pays, b.gets);
      InsertedPair(t.reverseBooks, b.gets, b.pays);
      AddBookTokens(t, b);
  }

  /** Another open book supports the same token entry as b. */
  ghost predicate SharesToken(t: Tables, b: Book) {
    || (exists i :: i != b.pays && TokenOf(i) == TokenOf(b.pays) && Has(t.allBooks, i, b.gets))
    || (exists o :: o != b.gets && TokenOf(o) == TokenOf(b.gets) && Has(t.allBooks, b.pays, o))
  }

  lemma RemoveBookSound(t: Tables, b: Book)
    requires TokensSound(t) && b.domain.None? && Tidy(t.allBooks)
    ensures TokensSound(RemoveBook(t, b))
  {
    var u := RemoveBook(t, b);
    RemovedPair(t.allBooks, b.pays, b.gets);
    RemovedPair(t.tokenFwd, TokenOf(b.pays), b.gets);
    RemovedPair(t.tokenRev, TokenOf(b.gets), b.pays);
    forall k, o | Has(u.tokenFwd, k, o)
      ensures TokenPays(u.allBooks, k, o)
    {
      var i :| TokenOf(i) == k && Has(t.allBooks, i, o);
      assert Has(u.allBooks, i, o);
    }
    forall k, i | Has(u.tokenRev, k, i)
      ensures TokenGets(u.allBooks, k, i)
    {
      var o :| TokenOf(o) == k && Has(t.allBooks, i, o);
      assert Has(u.allBooks, i, o);
    }
  }

  /** Removing an open book keeps the token tables complete exactly when no
      surviving book shares one of its two token entries. */
  lemma RemoveBookComplete(t: Tables, b: Book)
    requires TokensSound(t) && TokensComplete(t) && b.domain.None? && Tidy(t.allBooks)
    ensures TokensComplete(RemoveBook(t, b)) <==> !SharesToken(t, b)
  {
    var u := RemoveBook(t, b);
    RemovedPair(t.allBooks, b.pays, b.gets);
    RemovedPair(t.tokenFwd, TokenOf(b.pays), b.gets);
    RemovedPair(t.tokenRev, TokenOf(b.gets), b.pays);
    if SharesToken(t, b) {
      if i :| i != b.pays && TokenOf(i) == TokenOf(b.pays) && Has(t.allBooks, i, b.gets) {
        assert Has(u.allBooks, i, b.gets);
        assert TokenPays(u.allBooks, TokenOf(b.pays), b.gets);
      } else {
        var o :| o != b.gets && TokenOf(o) == TokenOf(b.gets) && Has(t.allBooks, b.pays, o);
        assert Has(u.allBooks, b.pays, o);
        assert TokenGets(u.allBooks, TokenOf(b.gets), b.pays);
      }
    } else {
      forall k, o | TokenPays(u.allBooks, k, o)
        ensures Has(u.tokenFwd, k, o)
      {
        var i :| TokenOf(i) == k && Has(u.allBooks, i, o);
        assert Has(t.allBooks, i, o);
        assert TokenPays(t.allBooks, k, o);
      }
      forall k, i | TokenGets(u.allBooks, k, i)
        ensures Has(u.tokenRev, k, i)
      {
        var o :| TokenOf(o) == k && Has(u.allBooks, i, o);
        assert Has(t.allBooks, i, o);
        assert TokenGets(t.allBooks, k, i);
      }
    }
  }

  lemma RemoveDomainPair(fwd: map<(Asset, Domain), set<Asset>>, rev: map<(Asset, Domain), set<Asset>>,
                         xrp: set<(Asset, Domain)>, i: Asset, d: Domain, o: Asset)
    requires DomainCoherent(fwd, rev, xrp)
    ensures DomainCoherent(RemovePair(fwd, (i, d), o), RemovePair(rev, (o, d), i),
                           if o.Xrp? then xrp - {(i, d)} else xrp)
    ensures forall x, y :: Has(RemovePair(fwd, (i, d), o), x, y) <==> Has(fwd, x, y) && !(x == (i, d) && y == o)
  {
    hide RemovePair, Has;
    RemovedPair(fwd, (i, d), o);
    RemovedPair(rev, (o, d), i);
  }

  lemma RemoveDomainBookCoherent(t: Tables, b: Book)
    requires Coherent(t) && b.domain.Some?
    ensures Coherent(RemoveBook(t, b)) && !HasExactBook(RemoveBook(t, b), b)
  {
    hide RemovePair, DomainCoherent, OpenCoherent, TokenPays, TokenGets, Tidy;
    RemoveDomainPair(t.domainBooks, t.reverseDomainBooks, t.xrpDomainBooks, b.pays, b.domain.value, b.gets);
  }

  lemma RemoveOpenBookCoherent(t: Tables, b: Book)
    requires Coherent(t) && b.domain.None?
    ensures Coherent(RemoveBook(t, b)) && !HasExactBook(RemoveBook(t, b), b)
  {
    RemovedPair(t.allBooks, b.pays, b.gets);
    RemovedPair(t.reverseBooks, b.gets, b.pays);
    RemoveBookSound(t, b);
    hide RemovePair, TokensSound;
  }

  lemma RemoveBookCoherent(t: Tables, b: Book)
    requires Coherent(t)
    ensures Coherent(RemoveBook(t, b)) && !HasExactBook(RemoveBook(t, b), b)
  {
    hide Coherent, RemoveBook, HasExactBook;
    if b.domain.Some? {
      RemoveDomainBookCoherent(t, b);
    } else {
      RemoveOpenBookCoherent(t, b);
    }
  }

  lemma TipRowsTidy(m: map<Token, map<Asset, Quality>>, k: Token, a: Asset, row: map<Asset, Quality>, q: Quality)
    requires RowsTidy(m)
    ensures RowsTidy(m[k := row[a := q]])
  {
    assert a in row[a := q];
  }

  lemma SetQualityCoherent(t: Tables, b: Book, q: Quality)
    requires Coherent(t) && HasExactBook(t, b)
    ensures Coherent(SetQuality(t, b, q))
  {
    TipRowsTidy(t.tokenTip, TokenOf(b.pays), b.gets, TipRow(t, TokenOf(b.pays)), q);
  }

  lemma BetterQualityCoherent(t: Tables, b: Book, q: Quality)
    requires Coherent(t) && HasExactBook(t, b)
    ensures Coherent(BetterQuality(t, b, q))
  {
    var row := TipRow(t, TokenOf(b.pays));
    TipRowsTidy(t.tokenTip, TokenOf(b.pays), b.gets, row, if b.gets in row then Min(row[b.gets], q) else q);
  }

  lemma AddPoolCoherent(t: Tables, b: Book)
    requires Coherent(t)
    ensures Coherent(AddBook(AddBook(t, b), Reversed(b)))
    ensures TokensComplete(t) ==> TokensComplete(AddBook(AddBook(t, b), Reversed(b)))
  {
    hide Coherent, TokensComplete, AddBook;
    AddBookCoherent(t, b);
    AddBookCoherent(AddBook(t, b), Reversed(b));
  }

  lemma AddFromSleCoherent(t: Tables, key: Key, e: Entry)
    requires Coherent(t)
    ensures Coherent(AddFromSle(t, key, e))
    ensures TokensComplete(t) ==> TokensComplete(AddFromSle(t, key, e))
  {
    if IsBookRoot(key, e) {
      if DirectoryBook(e).Some? {
        AddBookCoherent(t, DirectoryBook(e).value);
        SetQualityCoherent(AddBook(t, DirectoryBook(e).value), DirectoryBook(e).value, Rate(e));
      }
    } else {
      AddPoolCoherent(t, PoolBook(e));
    }
  }

  lemma SetupStepCoherent(t: Tables, key: Key, e: Entry)
    requires Coherent(t) && TokensComplete(t)
    ensures Coherent(SetupStep(t, key, e)) && TokensComplete(SetupStep(t, key, e))
  {
    if IsBookRoot(key, e) {
      if DirectoryBook(e).Some? {
        AddBookCoherent(t, DirectoryBook(e).value);
        BetterQualityCoherent(AddBook(t, DirectoryBook(e).value), DirectoryBook(e).value, Rate(e));
      }
    } else {
      AddPoolCoherent(t, PoolBook(e));
    }
  }

  lemma {:induction false} SetupCoherent(es: seq<(Key, Entry)>)
    ensures Coherent(Setup(es)) && TokensComplete(Setup(es))
  {
    if es == [] {
    } else {
      SetupCoherent(es[..|es| - 1]);
      SetupStepCoherent(Setup(es[..|es| - 1]), es[|es| - 1].0, es[|es| - 1].1);
    }
  }

  lemma RemoveFromSleCoherent(t: Tables, key: Key, e: Entry)
    requires Coherent(t)
    ensures Coherent(RemoveFromSle(t, key, e))
  {
    if IsBookRoot(key, e) && RootIndex in e.fields {
      if DirectoryBook(e).Some? {
        RemoveBookCoherent(t, DirectoryBook(e).value);
      }
    } else if e.kind.code.AmmType? && HasPoolAssets(e) {
      RemoveBookCoherent(t, PoolBook(e));
      RemoveBookCoherent(RemoveBook(t, PoolBook(e)), Reversed(PoolBook(e)));
    }
  }

  // ---- Runs ----

  datatype BookOp =
    | AddOrderBook(book: Book)
    | AddSle(key: Key, e: Entry)
    | RemoveSle(key: Key, e: Entry)
    | ClearAll
    | SetupFrom(es: seq<(Key, Entry)>)

  function Apply(t: Tables, op: BookOp): Tables {
    match op
    case AddOrderBook(b) => AddBook(t, b)
    case AddSle(key, e) => AddFromSle(t, key, e)
    case RemoveSle(key, e) => RemoveFromSle(t, key, e)
    case ClearAll => EmptyTables
    case SetupFrom(es) => Setup(es)
  }

  function Run(t: Tables, ops: seq<BookOp>): Tables
    decreases |ops|
  {
    if ops == [] then t else Run(Apply(t, ops[0]), ops[1..])
  }

  /** Every table stays coherent, whatever is added, removed or rebuilt. */
  lemma {:induction false} RunCoherent(t: Tables, ops: seq<BookOp>)
    requires Coherent(t)
    ensures Coherent(Run(t, ops))
    decreases |ops|
  {
    if ops == [] {
    } else {
      match ops[0] {
        case AddOrderBook(b) => AddBookCoherent(t, b);
        case AddSle(key, e) => AddFromSleCoherent(t, key, e);
        case RemoveSle(key, e) => RemoveFromSleCoherent(t, key, e);
        case ClearAll =>
        case SetupFrom(es) => SetupCoherent(es);
      }
      RunCoherent(Apply(t, ops[0]), ops[1..]);
    }
  }

  /** No open book this step removes shares a token entry with a survivor. */
  ghost predicate RemovesAlone(t: Tables, op: BookOp) {
    match op
    case RemoveSle(key, e) =>
      if IsBookRoot(key, e) && RootIndex in e.fields then
        match DirectoryBook(e)
        case None => true
        case Some(b) => b.domain.Some? || !SharesToken(t, b)
      else if e.kind.code.AmmType? && HasPoolAssets(e) then
        !SharesToken(t, PoolBook(e)) && !SharesToken(RemoveBook(t, PoolBook(e)), Reversed(PoolBook(e)))
      else true
    case _ => true
  }

  ghost predicate AlwaysRemovesAlone(t: Tables, ops: seq<BookOp>)
    decreases |ops|
  {
    ops == [] || (RemovesAlone(t, ops[0]) && AlwaysRemovesAlone(Apply(t, ops[0]), ops[1..]))
  }

  lemma RemoveAloneComplete(t: Tables, key: Key, e: Entry)
    requires Coherent(t) && TokensComplete(t) && RemovesAlone(t, RemoveSle(key, e))
    ensures Coherent(RemoveFromSle(t, key, e)) && TokensComplete(RemoveFromSle(t, key, e))
  {
    RemoveFromSleCoherent(t, key, e);
    if IsBookRoot(key, e) && RootIndex in e.fields {
      if DirectoryBook(e).Some? && DirectoryBook(e).value.domain.None? {
        RemoveBookComplete(t, DirectoryBook(e).value);
      }
    } else if e.kind.code.AmmType? && HasPoolAssets(e) {
      RemoveBookComplete(t, PoolBook(e));
      RemoveBookCoherent(t, PoolBook(e));
      RemoveBookComplete(RemoveBook(t, PoolBook(e)), Reversed(PoolBook(e)));
    }
  }

  /** On such runs the token tables are exactly the currency projection of the open books. */
  lemma {:induction false} RunComplete(t: Tables, ops: seq<BookOp>)
    requires Coherent(t) && TokensComplete(t) && AlwaysRemovesAlone(t, ops)
    ensures Coherent(Run(t, ops)) && TokensComplete(Run(t, ops))
    decreases |ops|
  {
    if ops == [] {
    } else {
      match ops[0] {
        case AddOrderBook(b) => AddBookCoherent(t, b);
        case AddSle(key, e) => AddFromSleCoherent(t, key, e);
        case RemoveSle(key, e) => RemoveAloneComplete(t, key, e);
        case ClearAll =>
        case SetupFrom(es) => SetupCoherent(es);
      }
      RunComplete(Apply(t, ops[0]), ops[1..]);
    }
  }

  // ---- Queries ----

  /** hasBook answers for every stored book; in a domain for those only, otherwise
      for some issuer of the paid token, and when the token tables are complete for
      exactly those. */
  lemma HasBookMeaning(t: Tables, src: Asset, dst: Asset)
    requires Coherent(t)
    ensures forall domain :: HasExactBook(t, Book(src, dst, domain)) ==> HasBook(t, src, dst, domain)
    ensures forall d: Domain :: HasBook(t, src, dst, Some(d)) ==> HasExactBook(t, Book(src, dst, Some(d)))
    ensures HasBook(t, src, dst, None) ==> TokenPays(t.allBooks, TokenOf(src), dst)
    ensures TokensComplete(t) ==> (HasBook(t, src, dst, None) <==> TokenPays(t.allBooks, TokenOf(src), dst))
  {
  }

  /** Neighbours are exactly the assets hasBook reaches. */
  lemma NeighborsAreBooks(t: Tables, src: Asset, dst: Asset, domain: Option<Domain>)
    ensures dst in Neighbors(t, src, domain) <==> HasBook(t, src, dst, domain)
  {
  }

  lemma FeedersMeaning(t: Tables, mid: Asset, dst: Asset)
    requires Coherent(t)
    ensures mid in Feeders(t, dst, None) ==> TokenGets(t.allBooks, TokenOf(dst), mid)
    ensures Has(t.allBooks, mid, dst) ==> mid in Feeders(t, dst, None)
    ensures TokensComplete(t) ==> (mid in Feeders(t, dst, None) <==> TokenGets(t.allBooks, TokenOf(dst), mid))
  {
  }

  /** The candidates between two assets: in a domain exactly the two-hop set;
      otherwise every exact two-hop asset, and none without a book from the
      source and a book on to some asset of the destination's token; over complete
      token tables exactly those with a book at each end for some issuer. */
  lemma IntermediatesMeaning(t: Tables, src: Asset, mid: Asset, dst: Asset, domain: Option<Domain>)
    requires Coherent(t)
    ensures var found := mid in Neighbors(t, src, domain) * Feeders(t, dst, domain);
            && (domain.Some? ==> (found <==> HasBook(t, src, mid, domain) && HasBook(t, mid, dst, domain)))
            && (domain.None? && found ==> HasBook(t, src, mid, None) && TokenGets(t.allBooks, TokenOf(dst), mid))
            && (domain.None? && Has(t.allBooks, src, mid) && Has(t.allBooks, mid, dst) ==> found)
            && (domain.None? && TokensComplete(t) ==>
                  (found <==> TokenPays(t.allBooks, TokenOf(src), mid) && TokenGets(t.allBooks, TokenOf(dst), mid)))
  {
    NeighborsAreBooks(t, src, mid, domain);
    match domain
    case Some(d) =>
      assert mid in Feeders(t, dst, domain) <==> Has(t.reverseDomainBooks, (dst, d), mid);
    case None =>
      HasBookMeaning(t, src, mid);
      FeedersMeaning(t, mid, dst);
  }

  // ---- Batch against incremental ----

  /** The adjacency tables are exactly what open edges E and domain edges D give. */
  ghost predicate Built(t: Tables, E: set<(Asset, Asset)>, D: set<((Asset, Domain), Asset)>) {
    && Coherent(t) && TokensComplete(t)
    && (forall i, o :: Has(t.allBooks, i, o) <==> (i, o) in E)
    && (forall i, d: Domain, o :: Has(t.domainBooks, (i, d), o) <==> ((i, d), o) in D)
  }

  function Adjacency(t: Tables): Tables {
    t.(tip := map[], tokenTip := map[])
  }

  lemma BuiltTokensAgree(a: Tables, b: Tables, E: set<(Asset, Asset)>, D: set<((Asset, Domain), Asset)>)
    requires Built(a, E, D) && Built(b, E, D)
    ensures a.tokenFwd == b.tokenFwd && a.tokenRev == b.tokenRev
  {
    TidyEqual(a.allBooks, b.allBooks);
    TidyEqual(a.tokenFwd, b.tokenFwd);
    TidyEqual(a.tokenRev, b.tokenRev);
  }

  lemma BuiltDomainsAgree(a: Tables, b: Tables, E: set<(Asset, Asset)>, D: set<((Asset, Domain), Asset)>)
    requires Built(a, E, D) && Built(b, E, D)
    ensures a.domainBooks == b.domainBooks && a.reverseDomainBooks == b.reverseDomainBooks
    ensures a.xrpDomainBooks == b.xrpDomainBooks
  {
    forall x: (Asset, Domain), y
      ensures Has(a.domainBooks, x, y) <==> Has(b.domainBooks, x, y)
      ensures Has(a.reverseDomainBooks, x, y) <==> Has(b.reverseDomainBooks, x, y)
    {
      assert x == (x.0, x.1);
      assert Has(a.domainBooks, (x.0, x.1), y) <==> Has(b.domainBooks, (x.0, x.1), y);
      assert Has(a.domainBooks, (y, x.1), x.0) <==> Has(b.domainBooks, (y, x.1), x.0);
    }
    TidyEqual(a.domainBooks, b.domainBooks);
    TidyEqual(a.reverseDomainBooks, b.reverseDomainBooks);
    XrpDomainsSub(a, b);
    XrpDomainsSub(b, a);
  }

  lemma XrpDomainsSub(a: Tables, b: Tables)
    requires Coherent(a) && Coherent(b) && a.domainBooks == b.domainBooks
    ensures a.xrpDomainBooks <= b.xrpDomainBooks
  {
    forall x | x in a.xrpDomainBooks
      ensures x in b.xrpDomainBooks
    {
      assert (x.0, x.1) in a.xrpDomainBooks;
      assert Has(b.domainBooks, (x.0, x.1), Xrp);
    }
  }

  /** The edges determine every adjacency table. */
  lemma BuiltAgree(a: Tables, b: Tables, E: set<(Asset, Asset)>, D: set<((Asset, Domain), Asset)>)
    requires Built(a, E, D) && Built(b, E, D)
    ensures Adjacency(a) == Adjacency(b)
  {
    TidyEqual(a.allBooks, b.allBooks);
    TidyEqual(a.reverseBooks, b.reverseBooks);
    assert forall i :: i in a.xrpBooks <==> i in b.xrpBooks;
    BuiltTokensAgree(a, b, E, D);
    BuiltDomainsAgree(a, b, E, D);
  }

  lemma AddOpenBookBuilt(t: Tables, b: Book, E: set<(Asset, Asset)>, D: set<((Asset, Domain), Asset)>)
    requires Built(t, E, D) && b.domain.None?
    ensures Built(AddBook(t, b), E + {(b.pays, b.gets)}, D)
  {
    AddBookCoherent(t, b);
    InsertedPair(t.allBooks, b.pays, b.gets);
  }

  lemma AddDomainBookBuilt(t: Tables, b: Book, E: set<(Asset, Asset)>, D: set<((Asset, Domain), Asset)>)
    requires Built(t, E, D) && b.domain.Some?
    ensures Built(AddBook(t, b), E, D + {((b.pays, b.domain.value), b.gets)})
  {
    AddBookCoherent(t, b);
    InsertedPair(t.domainBooks, (b.pays, b.domain.value), b.gets);
  }

  predicate IsPool(key: Key, e: Entry) {
    !IsBookRoot(key, e) && e.kind.code.AmmType?
  }

  /** A pool addFromSle passes over. */
  predicate DeadPool(key: Key, e: Entry) {
    IsPool(key, e) && !(HasLiquidity(e) && HasPoolAssets(e))
  }

  function PoolEdges(e: Entry): set<(Asset, Asset)> {
    {(PoolBook(e).pays, PoolBook(e).gets), (PoolBook(e).gets, PoolBook(e).pays)}
  }

  /** Open edges an entry contributes, counting dead pools or not. */
  function OpenEdges(key: Key, e: Entry, dead: bool): set<(Asset, Asset)> {
    if IsBookRoot(key, e) then
      match DirectoryBook(e)
      case None => {}
      case Some(b) => if b.domain.Some? then {} else {(b.pays, b.gets)}
    else if IsPool(key, e) && (dead || !DeadPool(key, e)) then PoolEdges(e)
    else {}
  }

  function DomainEdges(key: Key, e: Entry): set<((Asset, Domain), Asset)> {
    if IsBookRoot(key, e) then
      match DirectoryBook(e)
      case None => {}
      case Some(b) => if b.domain.Some? then {((b.pays, b.domain.value), b.gets)} else {}
    else {}
  }

  ghost function AllOpenEdges(es: seq<(Key, Entry)>, dead: bool): set<(Asset, Asset)> {
    set x, p | x in es && p in OpenEdges(x.0, x.1, dead) :: p
  }

  ghost function AllDomainEdges(es: seq<(Key, Entry)>): set<((Asset, Domain), Asset)> {
    set x, p | x in es && p in DomainEdges(x.0, x.1) :: p
  }

  lemma EdgesOfMore(es: seq<(Key, Entry)>, x: (Key, Entry), dead: bool)
    ensures AllOpenEdges(es + [x], dead) == AllOpenEdges(es, dead) + OpenEdges(x.0, x.1, dead)
    ensures AllDomainEdges(es + [x]) == AllDomainEdges(es) + DomainEdges(x.0, x.1)
  {
    assert forall y :: y in es + [x] <==> y in es || y == x;
  }

  lemma AddPoolBuilt(t: Tables, b: Book, E: set<(Asset, Asset)>, D: set<((Asset, Domain), Asset)>)
    requires Built(t, E, D) && b.domain.None?
    ensures Built(AddBook(AddBook(t, b), Reversed(b)), E + {(b.pays, b.gets), (b.gets, b.pays)}, D)
  {
    hide Built, AddBook;
    AddOpenBookBuilt(t, b, E, D);
    AddOpenBookBuilt(AddBook(t, b), Reversed(b), E + {(b.pays, b.gets)}, D);
    assert E + {(b.pays, b.gets)} + {(b.gets, b.pays)} == E + {(b.pays, b.gets), (b.gets, b.pays)};
  }

  /** Tip updates leave the adjacency tables alone. */
  lemma TipsBuilt(t: Tables, b: Book, q: Quality, E: set<(Asset, Asset)>, D: set<((Asset, Domain), Asset)>)
    requires Built(t, E, D) && HasExactBook(t, b)
    ensures Built(SetQuality(t, b, q), E, D) && Built(BetterQuality(t, b, q), E, D)
  {
    SetQualityCoherent(t, b, q);
    BetterQualityCoherent(t, b, q);
  }

  lemma StepBuilt(t: Tables, key: Key, e: Entry, E: set<(Asset, Asset)>, D: set<((Asset, Domain), Asset)>)
    requires Built(t, E, D)
    ensures Built(AddFromSle(t, key, e), E + OpenEdges(key, e, false), D + DomainEdges(key, e))
    ensures Built(SetupStep(t, key, e), E + OpenEdges(key, e, true), D + DomainEdges(key, e))
  {
    assert E + {} == E && D + {} == D;
    if IsBookRoot(key, e) {
      if DirectoryBook(e).Some? {
        var b := DirectoryBook(e).value;
        if b.domain.Some? {
          AddDomainBookBuilt(t, b, E, D);
        } else {
          AddOpenBookBuilt(t, b, E, D);
        }
        AddBookCoherent(t, b);
        TipsBuilt(AddBook(t, b), b, Rate(e), E + OpenEdges(key, e, false), D + DomainEdges(key, e));
      }
    } else {
      AddPoolBuilt(t, PoolBook(e), E, D);
    }
  }

  lemma {:induction false} AddAllBuilt(es: seq<(Key, Entry)>)
    ensures Built(AddAll(es), AllOpenEdges(es, false), AllDomainEdges(es))
  {
    if es == [] {
      assert AllOpenEdges(es, false) == {} && AllDomainEdges(es) == {};
    } else {
      var init, x := es[..|es| - 1], es[|es| - 1];
      hide AddFromSle, Built, AllOpenEdges, AllDomainEdges, OpenEdges, DomainEdges;
      AddAllBuilt(init);
      StepBuilt(AddAll(init), x.0, x.1, AllOpenEdges(init, false), AllDomainEdges(init));
      assert es == init + [x];
      EdgesOfMore(init, x, false);
    }
  }

  lemma {:induction false} SetupBuilt(es: seq<(Key, Entry)>)
    ensures Built(Setup(es), AllOpenEdges(es, true), AllDomainEdges(es))
  {
    if es == [] {
      assert AllOpenEdges(es, true) == {} && AllDomainEdges(es) == {};
    } else {
      var init, x := es[..|es| - 1], es[|es| - 1];
      hide SetupStep, Built, AllOpenEdges, AllDomainEdges, OpenEdges, DomainEdges;
      SetupBuilt(init);
      StepBuilt(Setup(init), x.0, x.1, AllOpenEdges(init, true), AllDomainEdges(init));
      assert es == init + [x];
      EdgesOfMore(init, x, true);
    }
  }

  lemma SameEntriesSameEdges(es: seq<(Key, Entry)>, ps: seq<(Key, Entry)>, dead: bool)
    requires forall x :: x in es <==> x in ps
    ensures AllOpenEdges(es, dead) == AllOpenEdges(ps, dead) && AllDomainEdges(es) == AllDomainEdges(ps)
  {
  }

  /** Every edge of a dead pool is also traded by something alive. */
  ghost predicate DeadPoolsCovered(es: seq<(Key, Entry)>) {
    forall x :: x in es && DeadPool(x.0, x.1) ==> PoolEdges(x.1) <= AllOpenEdges(es, false)
  }

  lemma CoveredEdges(es: seq<(Key, Entry)>)
    ensures DeadPoolsCovered(es) <==> AllOpenEdges(es, false) == AllOpenEdges(es, true)
  {
    if DeadPoolsCovered(es) {
      forall p | p in AllOpenEdges(es, true)
        ensures p in AllOpenEdges(es, false)
      {
        var x :| x in es && p in OpenEdges(x.0, x.1, true);
        if !DeadPool(x.0, x.1) {
          assert p in OpenEdges(x.0, x.1, false);
        }
      }
      forall p | p in AllOpenEdges(es, false)
        ensures p in AllOpenEdges(es, true)
      {
        var x :| x in es && p in OpenEdges(x.0, x.1, false);
        assert p in OpenEdges(x.0, x.1, true);
      }
    } else {
      var x :| x in es && DeadPool(x.0, x.1) && !(PoolEdges(x.1) <= AllOpenEdges(es, false));
      var p :| p in PoolEdges(x.1) && p !in AllOpenEdges(es, false);
      assert p in OpenEdges(x.0, x.1, true);
    }
  }

  lemma AdjacencyDeterminesEdges(a: Tables, b: Tables, E: set<(Asset, Asset)>, F: set<(Asset, Asset)>,
                                 D: set<((Asset, Domain), Asset)>)
    requires Built(a, E, D) && Built(b, F, D)
    ensures Adjacency(a) == Adjacency(b) <==> E == F
  {
    if E == F {
      BuiltAgree(a, b, E, D);
    }
    if a.allBooks == b.allBooks {
      forall p
        ensures p in E <==> p in F
      {
        assert p == (p.0, p.1);
        assert Has(a.allBooks, p.0, p.1) <==> Has(b.allBooks, p.0, p.1);
      }
    }
  }

  /** The incremental build, in any order, equals the batch build exactly when
      dead pools add no edge of their own. */
  lemma BatchMatchesIncremental(es: seq<(Key, Entry)>, ps: seq<(Key, Entry)>)
    requires multiset(es) == multiset(ps)
    ensures Adjacency(AddAll(ps)) == Adjacency(Setup(es)) <==> DeadPoolsCovered(es)
    ensures (forall x :: x in es ==> !DeadPool(x.0, x.1)) ==> Adjacency(AddAll(ps)) == Adjacency(Setup(es))
  {
    SameMultisetSameElements(es, ps);
    AddAllBuilt(ps);
    SetupBuilt(es);
    SameEntriesSameEdges(es, ps, false);
    SameEntriesSameEdges(es, ps, true);
    CoveredEdges(es);
    AdjacencyDeterminesEdges(AddAll(ps), Setup(es), AllOpenEdges(es, false), AllOpenEdges(es, true),
                             AllDomainEdges(es));
  }

  // ---- Tips ----

  predicate OpenDirectory(x: (Key, Entry), k: Token, gets: Asset) {
    && IsBookRoot(x.0, x.1) && DirectoryBook(x.1).Some? && DirectoryBook(x.1).value.domain.None?
    && TokenOf(DirectoryBook(x.1).value.pays) == k && DirectoryBook(x.1).value.gets == gets
  }

  /** The best rate of the open directories paying token k and getting `gets`. */
  function BestRate(es: seq<(Key, Entry)>, k: Token, gets: Asset): nat {
    if es == [] then U64_MAX
    else
      var rest := BestRate(es[..|es| - 1], k, gets);
      if OpenDirectory(es[|es| - 1], k, gets) then Min(rest, Rate(es[|es| - 1].1)) else rest
  }

  lemma {:induction false} BestRateIsLeast(es: seq<(Key, Entry)>, k: Token, gets: Asset)
    ensures forall x :: x in es && OpenDirectory(x, k, gets) ==> BestRate(es, k, gets) <= Rate(x.1)
    ensures BestRate(es, k, gets) == U64_MAX
            || exists x :: x in es && OpenDirectory(x, k, gets) && BestRate(es, k, gets) == Rate(x.1)
  {
    if es == [] {
    } else {
      var init, x := es[..|es| - 1], es[|es| - 1];
      BestRateIsLeast(init, k, gets);
      assert es == init + [x];
      if BestRate(es, k, gets) != U64_MAX && BestRate(es, k, gets) == BestRate(init, k, gets) {
        var y :| y in init && OpenDirectory(y, k, gets) && BestRate(init, k, gets) == Rate(y.1);
        assert y in es;
      }
    }
  }

  function TokenTipOf(t: Tables, k: Token, o: Asset): Quality {
    if o in TipRow(t, k) then TipRow(t, k)[o] else U64_MAX
  }

  /** An open book's own tip is no better than its token's. */
  predicate BookTipBounded(t: Tables, b: Book) {
    b in t.tip && b.domain.None? ==>
      b.gets in TipRow(t, TokenOf(b.pays)) && TipRow(t, TokenOf(b.pays))[b.gets] <= t.tip[b]
  }

  lemma BetterQualityTips(t: Tables, b: Book, q: Quality, k: Token, o: Asset)
    ensures TokenTipOf(BetterQuality(t, b, q), k, o) ==
            if k == TokenOf(b.pays) && o == b.gets then Min(TokenTipOf(t, k, o), q) else TokenTipOf(t, k, o)
  {
  }

  lemma BetterQualityBound(t: Tables, b: Book, q: Quality, c: Book)
    requires BookTipBounded(t, c)
    ensures BookTipBounded(BetterQuality(t, b, q), c)
  {
    var row := TipRow(t, TokenOf(b.pays));
    var u := BetterQuality(t, b, q);
    if TokenOf(c.pays) == TokenOf(b.pays) {
      assert TipRow(u, TokenOf(c.pays)) == row[b.gets := if b.gets in row then Min(row[b.gets], q) else q];
    } else {
      assert TipRow(u, TokenOf(c.pays)) == TipRow(t, TokenOf(c.pays));
    }
  }

  lemma OpenRootTips(t: Tables, b: Book, q: Quality, k: Token, o: Asset, c: Book)
    requires BookTipBounded(t, c)
    ensures BookTipBounded(BetterQuality(AddBook(t, b), b, q), c)
    ensures TokenTipOf(BetterQuality(AddBook(t, b), b, q), k, o) ==
            if k == TokenOf(b.pays) && o == b.gets then Min(TokenTipOf(t, k, o), q) else TokenTipOf(t, k, o)
  {
    var u := AddBook(t, b);
    SameTips(t, u, k, o, c);
    BetterQualityTips(u, b, q, k, o);
    BetterQualityBound(u, b, q, c);
  }

  lemma SetupStepTips(t: Tables, x: (Key, Entry), k: Token, o: Asset, c: Book)
    requires BookTipBounded(t, c)
    ensures BookTipBounded(SetupStep(t, x.0, x.1), c)
    ensures TokenTipOf(SetupStep(t, x.0, x.1), k, o) ==
            if OpenDirectory(x, k, o) then Min(TokenTipOf(t, k, o), Rate(x.1)) else TokenTipOf(t, k, o)
  {
    hide AddBook, BetterQuality, TokenTipOf, BookTipBounded, DirectoryBook, IsBookRoot;
    if IsBookRoot(x.0, x.1) {
      if DirectoryBook(x.1).Some? {
        var b := DirectoryBook(x.1).value;
        AddBookKeepsTips(t, b);
        SameTips(t, AddBook(t, b), k, o, c);
        OpenRootTips(t, b, Rate(x.1), k, o, c);
      }
    } else {
      var b := PoolBook(x.1);
      AddBookKeepsTips(t, b);
      AddBookKeepsTips(AddBook(t, b), Reversed(b));
      SameTips(t, SetupStep(t, x.0, x.1), k, o, c);
    }
  }

  lemma SameTips(t: Tables, u: Tables, k: Token, o: Asset, c: Book)
    requires t.tip == u.tip && t.tokenTip == u.tokenTip
    ensures BookTipBounded(t, c) <==> BookTipBounded(u, c)
    ensures TokenTipOf(t, k, o) == TokenTipOf(u, k, o)
  {
  }

  /** After setup a token tip is the best rate of its open directories. */
  lemma {:induction false} SetupTips(es: seq<(Key, Entry)>, k: Token, o: Asset, c: Book)
    ensures TokenTipOf(Setup(es), k, o) == BestRate(es, k, o)
    ensures BookTipBounded(Setup(es), c)
  {
    if es == [] {
    } else {
      SetupTips(es[..|es| - 1], k, o, c);
      SetupStepTips(Setup(es[..|es| - 1]), es[|es| - 1], k, o, c);
    }
  }

  /** tipQuality after a batch build is the minimum over the matching open directories. */
  lemma SetupTipQuality(es: seq<(Key, Entry)>, src: Asset, dst: Asset)
    ensures TipQuality(Setup(es), src, dst, None) == BestRate(es, TokenOf(src), dst)
  {
    SetupTips(es, TokenOf(src), dst, Book(src, dst, None));
    BestRateIsLeast(es, TokenOf(src), dst);
  }

  predicate TokenDirectory(x: (Key, Entry), k: Token, gets: Asset) {
    && IsBookRoot(x.0, x.1) && DirectoryBook(x.1).Some?
    && TokenOf(DirectoryBook(x.1).value.pays) == k && DirectoryBook(x.1).value.gets == gets
  }

  /** The rate of the last directory, open or in a domain, of a token pair. */
  function LastTokenRate(es: seq<(Key, Entry)>, k: Token, gets: Asset): nat {
    if es == [] then U64_MAX
    else if TokenDirectory(es[|es| - 1], k, gets) then Rate(es[|es| - 1].1)
    else LastTokenRate(es[..|es| - 1], k, gets)
  }

  /** The rate of the last directory of exactly this book. */
  function LastBookRate(es: seq<(Key, Entry)>, b: Book): nat {
    if es == [] then U64_MAX
    else if IsBookRoot(es[|es| - 1].0, es[|es| - 1].1) && DirectoryBook(es[|es| - 1].1) == Some(b) then
      Rate(es[|es| - 1].1)
    else LastBookRate(es[..|es| - 1], b)
  }

  function BookTipOf(t: Tables, b: Book): Quality {
    if b in t.tip then t.tip[b] else U64_MAX
  }

  lemma SetQualityTips(t: Tables, b: Book, q: Quality, k: Token, o: Asset, c: Book)
    ensures BookTipOf(SetQuality(t, b, q), c) == if b == c then q else BookTipOf(t, c)
    ensures TokenTipOf(SetQuality(t, b, q), k, o) ==
            if k == TokenOf(b.pays) && o == b.gets then q else TokenTipOf(t, k, o)
  {
  }

  lemma AddBookKeepsTips(t: Tables, b: Book)
    ensures AddBook(t, b).tip == t.tip && AddBook(t, b).tokenTip == t.tokenTip
  {
  }

  lemma SameBookTip(t: Tables, u: Tables, k: Token, o: Asset, c: Book)
    requires t.tip == u.tip && t.tokenTip == u.tokenTip
    ensures BookTipOf(t, c) == BookTipOf(u, c) && TokenTipOf(t, k, o) == TokenTipOf(u, k, o)
  {
  }

  lemma AddRootTips(t: Tables, b: Book, q: Quality, k: Token, o: Asset, c: Book)
    ensures BookTipOf(SetQuality(AddBook(t, b), b, q), c) == if b == c then q else BookTipOf(t, c)
    ensures TokenTipOf(SetQuality(AddBook(t, b), b, q), k, o) ==
            if k == TokenOf(b.pays) && o == b.gets then q else TokenTipOf(t, k, o)
  {
    hide AddBook, SetQuality, BookTipOf, TokenTipOf;
    AddBookKeepsTips(t, b);
    SameBookTip(t, AddBook(t, b), k, o, c);
    SetQualityTips(AddBook(t, b), b, q, k, o, c);
  }

  lemma AddFromSleTips(t: Tables, x: (Key, Entry), k: Token, o: Asset, c: Book)
    ensures TokenTipOf(AddFromSle(t, x.0, x.1), k, o) ==
            if TokenDirectory(x, k, o) then Rate(x.1) else TokenTipOf(t, k, o)
    ensures BookTipOf(AddFromSle(t, x.0, x.1), c) ==
            if IsBookRoot(x.0, x.1) && DirectoryBook(x.1) == Some(c) then Rate(x.1) else BookTipOf(t, c)
  {
    hide AddBook, SetQuality, BookTipOf, TokenTipOf, DirectoryBook, IsBookRoot;
    if IsBookRoot(x.0, x.1) {
      if DirectoryBook(x.1).Some? {
        AddRootTips(t, DirectoryBook(x.1).value, Rate(x.1), k, o, c);
      }
    } else {
      var b := PoolBook(x.1);
      AddBookKeepsTips(t, b);
      AddBookKeepsTips(AddBook(t, b), Reversed(b));
      SameBookTip(t, AddFromSle(t, x.0, x.1), k, o, c);
    }
  }

  lemma {:induction false} IncrementalTips(es: seq<(Key, Entry)>, k: Token, o: Asset, c: Book)
    ensures TokenTipOf(AddAll(es), k, o) == LastTokenRate(es, k, o)
    ensures BookTipOf(AddAll(es), c) == LastBookRate(es, c)
  {
    hide AddFromSle;
    if es == [] {
    } else {
      IncrementalTips(es[..|es| - 1], k, o, c);
      AddFromSleTips(AddAll(es[..|es| - 1]), es[|es| - 1], k, o, c);
    }
  }

  /** tipQuality after the incremental build follows the last directories visited. */
  lemma IncrementalTipQuality(es: seq<(Key, Entry)>, src: Asset, dst: Asset, domain: Option<Domain>)
    ensures TipQuality(AddAll(es), src, dst, domain) ==
              Min(LastBookRate(es, Book(src, dst, domain)), LastTokenRate(es, TokenOf(src), dst))
  {
    hide AddAll, LastBookRate, LastTokenRate;
    IncrementalTips(es, TokenOf(src), dst, Book(src, dst, domain));
  }

  /** A domain directory sets the open tip of its token pair, and removing the
      domain book leaves that tip behind. */
  lemma DomainTipLingers(t: Tables, b: Book, q: Quality)
    requires b.domain.Some?
    requires Book(b.pays, b.gets, None) !in t.tip
    ensures TipQuality(RemoveBook(SetQuality(AddBook(t, b), b, q), b), b.pays, b.gets, None) == q
  {
    var u := SetQuality(AddBook(t, b), b, q);
    assert TipRow(RemoveBook(u, b), TokenOf(b.pays)) == TipRow(u, TokenOf(b.pays));
    assert TipRow(u, TokenOf(b.pays))[b.gets] == q;
  }
}
