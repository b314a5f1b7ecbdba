// Hub chains that come back on themselves: books over which every search that
// is not cut short lists one, from XRP and to XRP.

module PathCases {
  import opened Prelude
  import opened LedgerObjects
  import opened BookTables
  import opened BookCases
  import opened BookProofs
  import opened SearchBudgets
  import opened PathSearch

  /** One open book more leads from the assets of its token to what it gets, and
      feeds the assets of that token. */
  lemma OneMoreBook(t: Tables, b: Book)
    requires b.domain.None?
    ensures forall s, a :: a in Neighbors(AddBook(t, b), s, None) <==>
              a in Neighbors(t, s, None) || (TokenOf(s) == TokenOf(b.pays) && a == b.gets)
    ensures forall s, a :: a in Feeders(AddBook(t, b), s, None) <==>
              a in Feeders(t, s, None) || (TokenOf(s) == TokenOf(b.gets) && a == b.pays)
  {
  }

  function Books(a: Book, b: Book, c: Book): Tables {
    AddBook(AddBook(AddBook(EmptyTables, a), b), c)
  }

  predicate TradesInto(b: Book, s: Asset, x: Asset) {
    TokenOf(s) == TokenOf(b.pays) && x == b.gets
  }

  predicate TradesFrom(b: Book, s: Asset, x: Asset) {
    TokenOf(s) == TokenOf(b.gets) && x == b.pays
  }

  lemma ThreeBooks(a: Book, b: Book, c: Book, s: Asset, x: Asset)
    requires a.domain.None? && b.domain.None? && c.domain.None?
    ensures x in Neighbors(Books(a, b, c), s, None) <==>
              TradesInto(a, s, x) || TradesInto(b, s, x) || TradesInto(c, s, x)
    ensures x in Feeders(Books(a, b, c), s, None) <==> TradesFrom(a, s, x) || TradesFrom(b, s, x) || TradesFrom(c, s, x)
  {
    hide AddBook, Neighbors, Feeders, TokenOf;
    NoBooks(s);
    OneMoreBook(EmptyTables, a);
    OneMoreBook(AddBook(EmptyTables, a), b);
    OneMoreBook(AddBook(AddBook(EmptyTables, a), b), c);
  }

  lemma NoBooks(s: Asset)
    ensures Neighbors(EmptyTables, s, None) == {} && Feeders(EmptyTables, s, None) == {}
  {
  }

  /** XRP trades into cents and back, and into gold. */
  const FromXrp := Books(Book(Xrp, CENTS, None), Book(CENTS, Xrp, None), Book(Xrp, GOLD, None))

  /** Gold trades into XRP, which trades into cents and back. */
  const ToXrp := Books(Book(GOLD, Xrp, None), Book(Xrp, CENTS, None), Book(CENTS, Xrp, None))

  lemma CentsAreBetween(a: Asset)
    ensures a in Between(FromXrp, Xrp, GOLD, None, IntoXrp) <==> a == CENTS
    ensures a in Between(ToXrp, GOLD, Xrp, None, OutOfXrp) <==> a == CENTS
  {
    hide Books, Neighbors, Feeders;
    ThreeBooks(Book(Xrp, CENTS, None), Book(CENTS, Xrp, None), Book(Xrp, GOLD, None), Xrp, a);
    ThreeBooks(Book(GOLD, Xrp, None), Book(Xrp, CENTS, None), Book(CENTS, Xrp, None), Xrp, a);
  }

  lemma HubIsReached()
    ensures HasBook(FromXrp, Xrp, GOLD, None) && HasBook(ToXrp, GOLD, Xrp, None)
  {
    hide Books, Neighbors, Feeders, HasBook;
    ThreeBooks(Book(Xrp, CENTS, None), Book(CENTS, Xrp, None), Book(Xrp, GOLD, None), Xrp, GOLD);
    ThreeBooks(Book(GOLD, Xrp, None), Book(Xrp, CENTS, None), Book(CENTS, Xrp, None), GOLD, Xrp);
    NeighborsAreBooks(FromXrp, Xrp, GOLD, None);
    NeighborsAreBooks(ToXrp, GOLD, Xrp, None);
  }

  lemma AllTheSame(ms: seq<Asset>, mid: Asset)
    requires NoDuplicates(ms) && forall a :: a in ms ==> a == mid
    ensures |ms| <= 1
  {
    CountElements(ms);
    SubsetSize(Elements(ms), {mid});
  }

  lemma OneAssetFits(t: Tables, src: Asset, dst: Asset, stage: Stage, budget: SearchBudget, mid: Asset)
    requires !stage.TwoHop? && forall a :: a in Between(t, src, dst, None, stage) ==> a == mid
    ensures StageFits(t, src, dst, None, stage, budget)
  {
    hide Between, UsableIn;
    forall ms: seq<Asset> |
      NoDuplicates(ms) && forall a :: a in ms ==> a in Between(t, src, dst, None, stage) && UsableIn(stage, src, dst, a)
      ensures |ms| <= 1
    {
      AllTheSame(ms, mid);
    }
  }

  /** From XRP to gold: whatever the budget, a stage into the hub that is entered,
      never stopped and left room lists the chain through cents back to XRP. */
  lemma IntoHubRevisits(budget: SearchBudget, proceed: nat -> bool, from: nat, scan: Scan, cands: seq<Path>)
    requires StageRan(FromXrp, Xrp, GOLD, None, IntoXrp, budget, proceed, from, scan, cands)
    requires budget.maxHops >= 3 && (forall n :: proceed(n)) && |cands| < CANDIDATE_LIMIT
    ensures [CENTS, Xrp, GOLD] in cands && !Simple(Xrp, [CENTS, Xrp, GOLD])
    ensures IsIntoHub(FromXrp, Xrp, GOLD, None, [CENTS, Xrp, GOLD])
  {
    hide StageRan, StageFits, Neighbors, Feeders, HasBook, Books;
    forall a {
      CentsAreBetween(a);
    }
    HubIsReached();
    OneAssetFits(FromXrp, Xrp, GOLD, IntoXrp, budget, CENTS);
    StageComplete(FromXrp, Xrp, GOLD, None, IntoXrp, budget, proceed, from, scan, cands, CENTS);
    HubChainsRevisit(FromXrp, Xrp, GOLD, None, [CENTS, Xrp, GOLD]);
  }

  /** From gold to XRP: the mirror case, in which XRP comes twice. */
  lemma OutOfHubRevisits(budget: SearchBudget, proceed: nat -> bool, from: nat, scan: Scan, cands: seq<Path>)
    requires StageRan(ToXrp, GOLD, Xrp, None, OutOfXrp, budget, proceed, from, scan, cands)
    requires budget.maxHops >= 3 && (forall n :: proceed(n)) && |cands| < CANDIDATE_LIMIT
    ensures [Xrp, CENTS, Xrp] in cands && !Simple(GOLD, [Xrp, CENTS, Xrp])
    ensures IsOutOfHub(ToXrp, GOLD, Xrp, None, [Xrp, CENTS, Xrp])
  {
    hide StageRan, StageFits, Neighbors, Feeders, HasBook, Books;
    forall a {
      CentsAreBetween(a);
    }
    HubIsReached();
    OneAssetFits(ToXrp, GOLD, Xrp, OutOfXrp, budget, CENTS);
    StageComplete(ToXrp, GOLD, Xrp, None, OutOfXrp, budget, proceed, from, scan, cands, CENTS);
    HubChainsRevisit(ToXrp, GOLD, Xrp, None, [Xrp, CENTS, Xrp]);
  }
}
