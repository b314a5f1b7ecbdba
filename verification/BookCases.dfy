// The claims about the order books that the code does not meet, each at a
// concrete input, and when the incremental tip is the best rate all the same.

module BookCases {
  import opened Prelude
  import opened LedgerObjects
  import opened BookTables
  import opened BookProofs

  const CENTS := Issued(1, 10)
  const OTHER_CENTS := Issued(1, 20)
  const THIRD_CENTS := Issued(1, 30)
  const GOLD := Issued(2, 5)

  // ---- Token tables ----

  /** Two issuers of one currency each have a book to the same asset. With one of
      the books removed, the other still trades the currency, but hasBook no longer
      answers for it from a third issuer. */
  lemma TokensCanBeIncomplete()
    ensures var both := AddBook(AddBook(EmptyTables, Book(CENTS, GOLD, None)), Book(OTHER_CENTS, GOLD, None));
            var left := RemoveBook(both, Book(CENTS, GOLD, None));
            && TokensComplete(both) && !TokensComplete(left)
            && TokenPays(left.allBooks, TokenOf(THIRD_CENTS), GOLD)
            && HasBook(both, THIRD_CENTS, GOLD, None) && !HasBook(left, THIRD_CENTS, GOLD, None)
  {
    hide AddBook, RemoveBook, Coherent;
    var b, c := Book(CENTS, GOLD, None), Book(OTHER_CENTS, GOLD, None);
    NothingListed();
    AddBookCoherent(EmptyTables, b);
    AddBookCoherent(AddBook(EmptyTables, b), c);
    var both := AddBook(AddBook(EmptyTables, b), c);
    var left := RemoveBook(both, b);
    TwoBooks(both, left);
    assert TokenPays(left.allBooks, CurrencyToken(1), GOLD);
  }

  lemma NothingListed()
    ensures Coherent(EmptyTables) && TokensComplete(EmptyTables)
  {
  }

  lemma TwoBooks(both: Tables, left: Tables)
    requires both == AddBook(AddBook(EmptyTables, Book(CENTS, GOLD, None)), Book(OTHER_CENTS, GOLD, None))
    requires left == RemoveBook(both, Book(CENTS, GOLD, None))
    ensures Has(both.tokenFwd, CurrencyToken(1), GOLD)
    ensures Has(left.allBooks, OTHER_CENTS, GOLD) && !Has(left.allBooks, THIRD_CENTS, GOLD)
    ensures !Has(left.tokenFwd, CurrencyToken(1), GOLD)
  {
    var one := AddBook(EmptyTables, Book(CENTS, GOLD, None));
    InsertedPair(EmptyTables.allBooks, CENTS, GOLD);
    InsertedPair(one.allBooks, OTHER_CENTS, GOLD);
    RemovedPair(both.allBooks, CENTS, GOLD);
    InsertedPair(EmptyTables.tokenFwd, CurrencyToken(1), GOLD);
    InsertedPair(one.tokenFwd, CurrencyToken(1), GOLD);
    RemovedPair(both.tokenFwd, CurrencyToken(1), GOLD);
    hide InsertPair, RemovePair, Has;
  }

  // ---- Batch against incremental ----

  /** A pool with a zero LP balance: setup lists its books, addFromSle does not. */
  lemma BatchCanDiffer()
    ensures var es: seq<(Key, Entry)> := [(0, DeadPoolEntry())];
            Has(Setup(es).allBooks, CENTS, GOLD) && !Has(AddAll(es).allBooks, CENTS, GOLD)
  {
    var e := DeadPoolEntry();
    var es: seq<(Key, Entry)> := [(0, e)];
    assert es[..0] == [];
    assert Setup(es) == SetupStep(EmptyTables, 0, e) && AddAll(es) == AddFromSle(EmptyTables, 0, e);
    assert PoolBook(e) == Book(CENTS, GOLD, None);
    InsertedPair(EmptyTables.allBooks, CENTS, GOLD);
    InsertedPair(AddBook(EmptyTables, PoolBook(e)).allBooks, GOLD, CENTS);
  }

  function DeadPoolEntry(): Entry {
    Entry(Kind(AmmType, {PoolAsset, PoolAsset2, LPTokenBalance}, {PoolAsset, PoolAsset2, LPTokenBalance}),
          map[PoolAsset := AssetValue(CENTS), PoolAsset2 := AssetValue(GOLD), LPTokenBalance := Num(0)])
  }

  // ---- Tips ----

  function Directory(key: Key, rate: nat): Entry {
    Entry(Kind(DirNodeType,
               {ExchangeRate, RootIndex, DomainID, TakerPaysCurrency, TakerPaysIssuer, TakerPaysMPT,
                TakerGetsCurrency, TakerGetsIssuer, TakerGetsMPT},
               {RootIndex}),
          map[ExchangeRate := Num(rate), RootIndex := Num(key), TakerPaysCurrency := Num(1), TakerPaysIssuer := Num(10),
              TakerGetsCurrency := Num(2), TakerGetsIssuer := Num(5)])
  }

  /** Two directories of one book, the worse rate last: the incremental tip is the
      worse one. */
  lemma IncrementalTipCanMiss()
    ensures var es: seq<(Key, Entry)> := [(1, Directory(1, 5)), (2, Directory(2, 9))];
            TipQuality(AddAll(es), CENTS, GOLD, None) == 9 && BestRate(es, CurrencyToken(1), GOLD) == 5
  {
    var x: (Key, Entry), y: (Key, Entry) := (1, Directory(1, 5)), (2, Directory(2, 9));
    var es := [x, y];
    assert es[..1] == [x] && [x][..0] == [];
    DirectoryIs(1, 5);
    DirectoryIs(2, 9);
    IncrementalTipQuality(es, CENTS, GOLD, None);
    LastRates(es, x, y);
    BestOfTwo(es, x, y);
  }

  lemma DirectoryIs(key: Key, rate: nat)
    requires rate <= U64_MAX
    ensures var x: (Key, Entry) := (key, Directory(key, rate));
            && IsBookRoot(x.0, x.1) && DirectoryBook(x.1) == Some(Book(CENTS, GOLD, None)) && Rate(x.1) == rate
            && OpenDirectory(x, CurrencyToken(1), GOLD) && TokenDirectory(x, CurrencyToken(1), GOLD)
  {
  }

  lemma LastRates(es: seq<(Key, Entry)>, x: (Key, Entry), y: (Key, Entry))
    requires es == [x, y] && TokenDirectory(y, CurrencyToken(1), GOLD)
    requires IsBookRoot(y.0, y.1) && DirectoryBook(y.1) == Some(Book(CENTS, GOLD, None))
    ensures LastTokenRate(es, CurrencyToken(1), GOLD) == Rate(y.1)
            && LastBookRate(es, Book(CENTS, GOLD, None)) == Rate(y.1)
  {
    hide TokenDirectory, IsBookRoot, DirectoryBook;
  }

  lemma BestOfTwo(es: seq<(Key, Entry)>, x: (Key, Entry), y: (Key, Entry))
    requires es == [x, y] && OpenDirectory(x, CurrencyToken(1), GOLD) && OpenDirectory(y, CurrencyToken(1), GOLD)
    ensures BestRate(es, CurrencyToken(1), GOLD) == Min(Rate(x.1), Rate(y.1))
  {
    hide OpenDirectory, Rate;
    BestRateIsLeast(es, CurrencyToken(1), GOLD);
    assert x in es && y in es;
  }

  /** After the incremental build tipQuality is the best rate of the open
      directories of the token pair exactly if none of them beats the better of the
      last directory of the pair, open or not, and the last one of the book, and
      one of them has that rate. */
  lemma IncrementalTipIsBest(es: seq<(Key, Entry)>, src: Asset, dst: Asset)
    ensures var last := Min(LastBookRate(es, Book(src, dst, None)), LastTokenRate(es, TokenOf(src), dst));
            TipQuality(AddAll(es), src, dst, None) == BestRate(es, TokenOf(src), dst) <==>
              && (forall x :: x in es && OpenDirectory(x, TokenOf(src), dst) ==> last <= Rate(x.1))
              && (last == U64_MAX || exists x :: x in es && OpenDirectory(x, TokenOf(src), dst) && Rate(x.1) == last)
  {
    hide OpenDirectory, Rate, AddAll, TipQuality, LastBookRate, LastTokenRate;
    IncrementalTipQuality(es, src, dst, None);
    BestRateIsLeast(es, TokenOf(src), dst);
  }
}
