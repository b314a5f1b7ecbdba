// The books one ledger entry stands for, field by field, and what adding or
// removing the entry changes.

module EntryBooks {
  import opened Prelude
  import opened LedgerObjects
  import opened BookTables
  import opened BookProofs
  import opened BookChanges

  // ---- Fields to books ----

  /** The fields name this asset on one side: a currency and its issuer, a zero
      currency for XRP, or an MPT where there is no currency. */
  predicate Names(e: Entry, currency: Field, issuer: Field, mpt: Field, a: Asset) {
    match a
    case Xrp => currency in e.fields && e.fields[currency] == Num(0)
    case Issued(c, i) =>
      && c != 0 && currency in e.fields && e.fields[currency] == Num(c)
      && issuer in e.fields && e.fields[issuer] == Num(i)
    case Mpt(id) => currency !in e.fields && mpt in e.fields && e.fields[mpt] == Num(id)
  }

  /** A directory of this book. */
  predicate Describes(e: Entry, b: Book) {
    && Names(e, TakerPaysCurrency, TakerPaysIssuer, TakerPaysMPT, b.pays)
    && Names(e, TakerGetsCurrency, TakerGetsIssuer, TakerGetsMPT, b.gets)
    && (b.domain.Some? <==> DomainID in e.fields)
    && (b.domain.Some? ==> e.fields[DomainID] == Num(b.domain.value))
  }

  /** Neither a currency nor an MPT. */
  predicate NoSide(e: Entry, currency: Field, mpt: Field) {
    currency !in e.fields && mpt !in e.fields
  }

  lemma DirectoryBookMeans(e: Entry, b: Book)
    ensures Describes(e, b) ==> DirectoryBook(e) == Some(b)
    ensures DirectoryBook(e).None? <==>
              NoSide(e, TakerPaysCurrency, TakerPaysMPT) || NoSide(e, TakerGetsCurrency, TakerGetsMPT)
  {
  }

  /** The root page of a book directory, rather than one of its other pages. */
  predicate RootPage(key: Key, e: Entry) {
    && e.kind.code.DirNodeType? && ExchangeRate in e.fields
    && RootIndex in e.fields && e.fields[RootIndex] == Num(key)
  }

  /** A pool of two assets with this LP token balance. */
  predicate PoolOf(e: Entry, x: Asset, y: Asset, balance: int) {
    && e.kind.code.AmmType? && LPTokenBalance in e.fields && e.fields[LPTokenBalance] == Num(balance)
    && PoolAsset in e.fields && e.fields[PoolAsset] == AssetValue(x)
    && PoolAsset2 in e.fields && e.fields[PoolAsset2] == AssetValue(y)
  }

  /** Neither a book's root page nor a pool: another kind of object, a directory
      without a rate, or another page of one. */
  predicate NoSource(key: Key, e: Entry) {
    || !(e.kind.code.DirNodeType? || e.kind.code.AmmType?)
    || (e.kind.code.DirNodeType? && ExchangeRate !in e.fields)
    || (e.kind.code.DirNodeType? && RootIndex in e.fields && e.fields[RootIndex].Num? && e.fields[RootIndex].n >= 0
        && e.fields[RootIndex].n != key)
  }

  /** The entry stands for this book; a dead pool does if it counts as one. */
  predicate Lists(key: Key, e: Entry, dead: bool, b: Book) {
    match b.domain
    case None => (b.pays, b.gets) in OpenEdges(key, e, dead)
    case Some(d) => ((b.pays, d), b.gets) in DomainEdges(key, e)
  }

  /** Which books those are, by the entry's fields. */
  lemma ListsMeans(key: Key, e: Entry, dead: bool, b: Book, c: Book, x: Asset, y: Asset, balance: int)
    ensures RootPage(key, e) && Describes(e, b) ==> (Lists(key, e, dead, c) <==> c == b)
    ensures NoSide(e, TakerPaysCurrency, TakerPaysMPT) || NoSide(e, TakerGetsCurrency, TakerGetsMPT) ==>
              RootPage(key, e) ==> !Lists(key, e, dead, c)
    ensures PoolOf(e, x, y, balance) ==>
              (Lists(key, e, dead, c) <==> (dead || balance != 0) && (c == Book(x, y, None) || c == Book(y, x, None)))
    ensures NoSource(key, e) ==> !Lists(key, e, dead, c)
  {
    DirectoryBookMeans(e, b);
    hide DirectoryBook, Names;
  }

  // ---- Removing an entry ----

  /** removeFromSle acts on it at all. */
  predicate Removable(key: Key, e: Entry) {
    || (e.kind.code.DirNodeType? && ExchangeRate in e.fields && RootIndex in e.fields && NatField(e, RootIndex) == key)
    || (e.kind.code.AmmType? && PoolAsset in e.fields && PoolAsset2 in e.fields)
  }

  /** Removing an entry removes exactly its books, with their tips. */
  lemma RemoveEntryExact(t: Tables, key: Key, e: Entry, c: Book)
    requires Coherent(t)
    ensures var u := RemoveFromSle(t, key, e);
            if Removable(key, e) then
              && (HasExactBook(u, c) <==> HasExactBook(t, c) && !Lists(key, e, true, c))
              && BookTipOf(u, c) == if Lists(key, e, true, c) then U64_MAX else BookTipOf(t, c)
            else u == t
  {
    hide RemoveBook, Coherent, HasExactBook, BookTipOf, TokenTipOf, DirectoryBook, PoolBook;
    if e.kind.code.AmmType? {
      var p := PoolBook(e);
      RemoveBookExact(t, p, c, NativeToken, Xrp);
      RemoveBookCoherent(t, p);
      RemoveBookExact(RemoveBook(t, p), Reversed(p), c, NativeToken, Xrp);
      assert p.domain == None by { PoolIsOpen(e); }
    } else if DirectoryBook(e).Some? {
      RemoveBookExact(t, DirectoryBook(e).value, c, NativeToken, Xrp);
    }
  }

  lemma PoolIsOpen(e: Entry)
    ensures PoolBook(e).domain == None
  {
  }

  lemma EntryRemoves(t: Tables, key: Key, e: Entry)
    ensures Coherent(t) && Removable(key, e) ==>
              forall c :: HasExactBook(RemoveFromSle(t, key, e), c) <==> HasExactBook(t, c) && !Lists(key, e, true, c)
  {
    hide HasExactBook, RemoveFromSle, Lists, Coherent;
    forall c | Coherent(t) && Removable(key, e)
      ensures HasExactBook(RemoveFromSle(t, key, e), c) <==> HasExactBook(t, c) && !Lists(key, e, true, c)
    {
      RemoveEntryExact(t, key, e, c);
    }
  }

  /** ... and for its open books the tips of their token pairs, and no others. */
  lemma RemoveEntryTips(t: Tables, key: Key, e: Entry, k: Token, o: Asset)
    requires Coherent(t) && Removable(key, e)
    ensures TokenTipOf(RemoveFromSle(t, key, e), k, o) ==
            if exists i :: TokenOf(i) == k && Lists(key, e, true, Book(i, o, None)) then U64_MAX
            else TokenTipOf(t, k, o)
  {
    hide RemoveBook, Coherent, TokenTipOf, DirectoryBook, PoolBook, TokenOf;
    if e.kind.code.AmmType? {
      var p := PoolBook(e);
      PoolIsOpen(e);
      RemoveBookExact(t, p, p, k, o);
      RemoveBookCoherent(t, p);
      RemoveBookExact(RemoveBook(t, p), Reversed(p), p, k, o);
      assert Lists(key, e, true, p) && Lists(key, e, true, Reversed(p));
    } else if DirectoryBook(e).Some? {
      var b := DirectoryBook(e).value;
      RemoveBookExact(t, b, b, k, o);
      assert Lists(key, e, true, b);
    }
  }

  /** A removed book is no longer answered for, and an open one has no tip left. */
  lemma RemovedIsNotAnswered(t: Tables, b: Book)
    requires Coherent(t)
    ensures !HasBook(RemoveBook(t, b), b.pays, b.gets, b.domain)
    ensures b.domain.None? ==> TipQuality(RemoveBook(t, b), b.pays, b.gets, None) == U64_MAX
  {
    hide TokensSound, OpenCoherent, DomainCoherent;
    RemoveBookExact(t, b, b, TokenOf(b.pays), b.gets);
    if b.domain.None? {
      TokenEntryGone(t, b);
    }
  }

  lemma TokenEntryGone(t: Tables, b: Book)
    requires Coherent(t) && b.domain.None?
    ensures !Has(RemoveBook(t, b).tokenFwd, TokenOf(b.pays), b.gets)
  {
    RemovedPair(t.tokenFwd, TokenOf(b.pays), b.gets);
  }

  // ---- Adding an entry ----

  /** Adding an entry adds exactly its books, dead pools aside, and sets the tips
      of a directory's book to the directory's rate. */
  lemma AddEntryExact(t: Tables, key: Key, e: Entry, c: Book)
    requires Coherent(t)
    ensures var u := AddFromSle(t, key, e);
            && (HasExactBook(u, c) <==> HasExactBook(t, c) || Lists(key, e, false, c))
            && BookTipOf(u, c) == if e.kind.code.DirNodeType? && Lists(key, e, false, c) then Rate(e)
                                  else BookTipOf(t, c)
  {
    hide AddBook, Coherent, DirectoryBook, PoolBook, HasLiquidity;
    if e.kind.code.AmmType? {
      var p := PoolBook(e);
      PoolIsOpen(e);
      AddBookExact(t, p, c);
      AddBookCoherent(t, p);
      AddBookExact(AddBook(t, p), Reversed(p), c);
    } else if DirectoryBook(e).Some? {
      var b := DirectoryBook(e).value;
      AddBookExact(t, b, c);
    }
  }

  lemma EntryAdds(t: Tables, key: Key, e: Entry)
    ensures Coherent(t) ==>
              forall c :: HasExactBook(AddFromSle(t, key, e), c) <==> HasExactBook(t, c) || Lists(key, e, false, c)
  {
    hide HasExactBook, AddFromSle, Lists, Coherent;
    forall c | Coherent(t)
      ensures HasExactBook(AddFromSle(t, key, e), c) <==> HasExactBook(t, c) || Lists(key, e, false, c)
    {
      AddEntryExact(t, key, e, c);
    }
  }

  /** The rate is the one stored, if it fits 64 bits. */
  lemma RateMeans(e: Entry, rate: nat)
    requires ExchangeRate in e.fields && e.fields[ExchangeRate] == Num(rate) && rate <= 0xFFFF_FFFF_FFFF_FFFF
    ensures Rate(e) == rate
  {
  }

  lemma AddEntryTips(t: Tables, key: Key, e: Entry, k: Token, o: Asset)
    ensures TokenTipOf(AddFromSle(t, key, e), k, o) ==
            if e.kind.code.DirNodeType? && (exists b :: Lists(key, e, false, b) && TokenOf(b.pays) == k && b.gets == o)
            then Rate(e) else TokenTipOf(t, k, o)
  {
    hide DirectoryBook, PoolBook, HasLiquidity, TokenOf, AddBook, SetQuality, TokenTipOf, Rate;
    if e.kind.code.AmmType? {
      AddBookKeepsTips(t, PoolBook(e));
      AddBookKeepsTips(AddBook(t, PoolBook(e)), Reversed(PoolBook(e)));
      SameBookTip(t, AddFromSle(t, key, e), k, o, PoolBook(e));
    } else if DirectoryBook(e).Some? {
      var b := DirectoryBook(e).value;
      AddRootTips(t, b, Rate(e), k, o, b);
      assert IsBookRoot(key, e) ==> Lists(key, e, false, b);
    }
  }

  // ---- Whole runs: the tables hold one set of books ----

  /** Whether a book is listed after a run, by the operations alone. */
  ghost predicate Traded(ops: seq<BookOp>, b: Book) {
    ops != [] &&
    var before := Traded(ops[..|ops| - 1], b);
    match ops[|ops| - 1]
    case AddOrderBook(added) => before || b == added
    case AddSle(key, e) => before || Lists(key, e, false, b)
    case RemoveSle(key, e) => before && !(Removable(key, e) && Lists(key, e, true, b))
    case ClearAll => false
    case SetupFrom(es) => exists x :: x in es && Lists(x.0, x.1, true, b)
  }

  lemma {:induction false} RunLast(t: Tables, ops: seq<BookOp>)
    requires ops != []
    ensures Run(t, ops) == Apply(Run(t, ops[..|ops| - 1]), ops[|ops| - 1])
    decreases |ops|
  {
    hide Apply;
    if |ops| > 1 {
      RunLast(Apply(t, ops[0]), ops[1..]);
      assert ops[1..][..|ops| - 2] == ops[..|ops| - 1][1..];
    }
  }

  lemma SetupHolds(es: seq<(Key, Entry)>, b: Book)
    ensures HasExactBook(Setup(es), b) <==> exists x :: x in es && Lists(x.0, x.1, true, b)
  {
    hide Setup, OpenEdges, DomainEdges, Coherent, TokensComplete;
    SetupBuilt(es);
    match b.domain
    case None => assert (b.pays, b.gets) in AllOpenEdges(es, true) <==> HasExactBook(Setup(es), b);
    case Some(d) => assert ((b.pays, d), b.gets) in AllDomainEdges(es) <==> HasExactBook(Setup(es), b);
  }

  /** In every run from empty tables exactly the books the run calls for are stored:
      no directory or pool that was removed, and none that was not added. */
  lemma {:induction false} RunHolds(ops: seq<BookOp>, b: Book)
    ensures HasExactBook(Run(EmptyTables, ops), b) <==> Traded(ops, b)
  {
    hide HasExactBook, Coherent, Lists, Removable, AddBook, AddFromSle, RemoveFromSle, Setup;
    if ops == [] {
      NoBook(b);
    } else {
      var before, last := ops[..|ops| - 1], ops[|ops| - 1];
      var t := Run(EmptyTables, before);
      RunHolds(before, b);
      RunLast(EmptyTables, ops);
      EmptyCoherent();
      RunCoherent(EmptyTables, before);
      match last
      case AddOrderBook(added) => AddBookExact(t, added, b);
      case AddSle(key, e) => AddEntryExact(t, key, e, b);
      case RemoveSle(key, e) => RemoveEntryExact(t, key, e, b);
      case ClearAll => NoBook(b);
      case SetupFrom(es) => SetupHolds(es, b);
    }
  }

  lemma NoBook(b: Book)
    ensures !HasExactBook(EmptyTables, b)
  {
  }

  lemma EmptyCoherent()
    ensures Coherent(EmptyTables)
  {
  }
}
