// LocalOrderBooks: ten hash tables updated in place.

module OrderBooks {
  import opened Prelude
  import opened LedgerObjects
  import opened BookTables
  import opened BookProofs
  import opened EntryBooks
  import opened LedgerStore

  class LocalOrderBooks {
    var allBooks: map<Asset, set<Asset>>
    var reverseBooks: map<Asset, set<Asset>>
    var domainBooks: map<(Asset, Domain), set<Asset>>
    var reverseDomainBooks: map<(Asset, Domain), set<Asset>>
    var xrpBooks: set<Asset>
    var xrpDomainBooks: set<(Asset, Domain)>
    var tokenFwd: map<Token, set<Asset>>
    var tokenRev: map<Token, set<Asset>>
    var tip: map<Book, Quality>
    var tokenTip: map<Token, map<Asset, Quality>>

    ghost function Contents(): Tables
      reads this
    {
      Tables(allBooks, reverseBooks, xrpBooks, domainBooks, reverseDomainBooks, xrpDomainBooks,
             tokenFwd, tokenRev, tip, tokenTip)
    }

    constructor ()
      ensures Contents() == EmptyTables
    {
      allBooks, reverseBooks, xrpBooks := map[], map[], {};
      domainBooks, reverseDomainBooks, xrpDomainBooks := map[], map[], {};
      tokenFwd, tokenRev, tip, tokenTip := map[], map[], map[], map[];
    }

    method AddOrderBook(book: Book)
      modifies this
      ensures Contents() == AddBook(old(Contents()), book)
    {
      hide InsertPair;
      if book.domain.Some? {
        var d := book.domain.value;
        domainBooks := InsertPair(domainBooks, (book.pays, d), book.gets);
        reverseDomainBooks := InsertPair(reverseDomainBooks, (book.gets, d), book.pays);
        if book.gets.Xrp? {
          xrpDomainBooks := xrpDomainBooks + {(book.pays, d)};
        }
        return;
      }
      allBooks := InsertPair(allBooks, book.pays, book.gets);
      reverseBooks := InsertPair(reverseBooks, book.gets, book.pays);
      tokenFwd := InsertPair(tokenFwd, TokenOf(book.pays), book.gets);
      tokenRev := InsertPair(tokenRev, TokenOf(book.gets), book.pays);
      if book.gets.Xrp? {
        xrpBooks := xrpBooks + {book.pays};
      }
    }

    method SetBookQuality(book: Book, quality: Quality)
      modifies this`tip, this`tokenTip
      ensures Contents() == SetQuality(old(Contents()), book, quality)
    {
      tip := tip[book := quality];
      var k := TokenOf(book.pays);
      var row := if k in tokenTip then tokenTip[k] else map[];
      tokenTip := tokenTip[k := row[book.gets := quality]];
    }

    method RemoveOrderBook(book: Book)
      modifies this
      ensures Contents() == RemoveBook(old(Contents()), book)
    {
      hide RemovePair, RemoveTokenTip;
      tip := tip - {book};
      if book.domain.Some? {
        var d := book.domain.value;
        domainBooks := RemovePair(domainBooks, (book.pays, d), book.gets);
        reverseDomainBooks := RemovePair(reverseDomainBooks, (book.gets, d), book.pays);
        if book.gets.Xrp? {
          xrpDomainBooks := xrpDomainBooks - {(book.pays, d)};
        }
        return;
      }
      allBooks := RemovePair(allBooks, book.pays, book.gets);
      reverseBooks := RemovePair(reverseBooks, book.gets, book.pays);
      tokenFwd := RemovePair(tokenFwd, TokenOf(book.pays), book.gets);
      tokenRev := RemovePair(tokenRev, TokenOf(book.gets), book.pays);
      if book.gets.Xrp? {
        xrpBooks := xrpBooks - {book.pays};
      }
      tokenTip := RemoveTokenTip(tokenTip, TokenOf(book.pays), book.gets);
    }

    method AddSle(key: Key, e: Entry)
      modifies this
      ensures Contents() == AddFromSle(old(Contents()), key, e)
      ensures Coherent(old(Contents())) ==>
                forall c :: HasExactBook(Contents(), c) <==>
                  HasExactBook(old(Contents()), c) || Lists(key, e, false, c)
    {
      hide Coherent, HasExactBook, Lists;
      EntryAdds(Contents(), key, e);
      if IsBookRoot(key, e) {
        var book := DirectoryBook(e);
        if book.Some? {
          AddOrderBook(book.value);
          SetBookQuality(book.value, Rate(e));
        }
        return;
      }
      if e.kind.code.AmmType? && HasLiquidity(e) && HasPoolAssets(e) {
        AddOrderBook(PoolBook(e));
        AddOrderBook(Reversed(PoolBook(e)));
      }
    }

    method RemoveSle(key: Key, e: Entry)
      modifies this
      ensures Contents() == RemoveFromSle(old(Contents()), key, e)
      ensures Coherent(old(Contents())) && Removable(key, e) ==>
                forall c :: HasExactBook(Contents(), c) <==>
                  HasExactBook(old(Contents()), c) && !Lists(key, e, true, c)
    {
      hide Coherent, HasExactBook, Lists, Removable;
      EntryRemoves(Contents(), key, e);
      if IsBookRoot(key, e) && RootIndex in e.fields {
        var book := DirectoryBook(e);
        if book.Some? {
          RemoveOrderBook(book.value);
        }
        return;
      }
      if e.kind.code.AmmType? && HasPoolAssets(e) {
        RemoveOrderBook(PoolBook(e));
        RemoveOrderBook(Reversed(PoolBook(e)));
      }
    }

    method Clear()
      modifies this
      ensures Contents() == EmptyTables
    {
      allBooks, reverseBooks, xrpBooks := map[], map[], {};
      domainBooks, reverseDomainBooks, xrpDomainBooks := map[], map[], {};
      tokenFwd, tokenRev, tip, tokenTip := map[], map[], map[], map[];
    }

    /** Rebuilds everything from a view, whose objects all decode, and swaps
        the result in: the tables are the batch build over the view's entries
        in ascending key order. */
    method SetupBooks(ledger: MemoryLedger<Item>) returns (keys: seq<Key>)
      requires ledger.Valid()
      requires forall k :: k in ledger.model ==> ledger.model[k].Decoded?
      modifies this
      ensures Ascending(keys) && forall k :: k in keys <==> k in ledger.model
      ensures Contents() == Setup(EntriesAt(ledger.model, keys))
    {
      keys := ledger.WalkSles();
      var t := BuildTables(ledger, keys);
      allBooks, reverseBooks, xrpBooks := t.allBooks, t.reverseBooks, t.xrpBooks;
      domainBooks, reverseDomainBooks := t.domainBooks, t.reverseDomainBooks;
      xrpDomainBooks := t.xrpDomainBooks;
      tokenFwd, tokenRev, tip, tokenTip := t.tokenFwd, t.tokenRev, t.tip, t.tokenTip;
    }

    /** The loop of setup over the objects of a view, into local tables. */
    method BuildTables(ledger: MemoryLedger<Item>, sles: seq<Key>) returns (t: Tables)
      requires ledger.Valid()
      requires forall k :: k in sles ==> k in ledger.model && ledger.model[k].Decoded?
      ensures t == Setup(EntriesAt(ledger.model, sles))
    {
      t := EmptyTables;
      ghost var es := EntriesAt(ledger.model, sles);
      for i := 0 to |sles|
        invariant t == Setup(es[..i])
      {
        SetupNext(es, i);
        assert sles[i] in sles;
        var item := ledger.FindItem(sles[i]);
        t := SetupStep(t, sles[i], item.value.entry);
      }
      assert es[..|sles|] == es;
    }

    method GetHasBook(src: Asset, dst: Asset, domain: Option<Domain>) returns (r: bool)
      ensures r <==> HasBook(Contents(), src, dst, domain)
    {
      if domain.None? {
        if src in allBooks && dst in allBooks[src] {
          return true;
        }
        return TokenOf(src) in tokenFwd && dst in tokenFwd[TokenOf(src)];
      }
      return (src, domain.value) in domainBooks && dst in domainBooks[(src, domain.value)];
    }

    method GetBookSize(asset: Asset, domain: Option<Domain>) returns (n: nat)
      ensures n == BookSize(Contents(), asset, domain)
      ensures exists gets :: BooksFrom(Contents(), asset, domain, gets) && n == |gets|
    {
      if domain.None? {
        assert BooksFrom(Contents(), asset, domain, Bucket(allBooks, asset));
        return |Bucket(allBooks, asset)|;
      }
      assert BooksFrom(Contents(), asset, domain, Bucket(domainBooks, (asset, domain.value)));
      return |Bucket(domainBooks, (asset, domain.value))|;
    }

    method GetTipQuality(src: Asset, dst: Asset, domain: Option<Domain>) returns (best: Quality)
      ensures best == TipQuality(Contents(), src, dst, domain)
    {
      best := U64_MAX;
      var book := Book(src, dst, domain);
      if book in tip {
        best := tip[book];
      }
      var k := TokenOf(src);
      if k in tokenTip && dst in tokenTip[k] && tokenTip[k][dst] < best {
        best := tokenTip[k][dst];
      }
    }

    method IsBookToXrp(asset: Asset, domain: Option<Domain>) returns (r: bool)
      ensures Coherent(Contents()) ==> (r <==> HasExactBook(Contents(), Book(asset, Xrp, domain)))
      ensures r <==> if domain.Some? then (asset, domain.value) in xrpDomainBooks else asset in xrpBooks
    {
      if domain.Some? {
        return (asset, domain.value) in xrpDomainBooks;
      }
      return asset in xrpBooks;
    }

    /** The members of a hash set, in whatever order it iterates. */
    method Listed(s: set<Asset>) returns (r: seq<Asset>)
      ensures NoDuplicates(r)
      ensures forall a :: a in r <==> a in s
    {
      r := [];
      var rest := s;
      while rest != {}
        invariant rest <= s
        invariant NoDuplicates(r)
        invariant forall a :: a in r <==> a in s - rest
        decreases rest
      {
        var a :| a in rest;
        assert a !in r;
        r := r + [a];
        rest := rest - {a};
      }
    }

    method GetNeighbors(src: Asset, domain: Option<Domain>) returns (r: seq<Asset>)
      ensures NoDuplicates(r)
      ensures forall a :: a in r <==> HasBook(Contents(), src, a, domain)
    {
      var merged := if domain.None? then Bucket(allBooks, src) + Bucket(tokenFwd, TokenOf(src))
                    else Bucket(domainBooks, (src, domain.value));
      r := Listed(merged);
      forall a
        ensures a in r <==> HasBook(Contents(), src, a, domain)
      {
        NeighborsAreBooks(Contents(), src, a, domain);
      }
    }

    /** Scans the smaller of the two sets; which one that is does not matter. */
    method GetIntermediates(src: Asset, dst: Asset, domain: Option<Domain>) returns (r: seq<Asset>)
      ensures NoDuplicates(r)
      ensures forall a :: a in r <==> a in Neighbors(Contents(), src, domain) * Feeders(Contents(), dst, domain)
    {
      var fwd, rev;
      if domain.None? {
        fwd := Bucket(allBooks, src) + Bucket(tokenFwd, TokenOf(src));
        rev := Bucket(reverseBooks, dst) + Bucket(tokenRev, TokenOf(dst));
      } else {
        fwd := Bucket(domainBooks, (src, domain.value));
        rev := Bucket(reverseDomainBooks, (dst, domain.value));
      }
      r := [];
      if fwd == {} || rev == {} {
        return;
      }
      var smaller, larger := fwd, rev;
      if |rev| < |fwd| {
        smaller, larger := larger, smaller;
      }
      var scan := Listed(smaller);
      for i := 0 to |scan|
        invariant NoDuplicates(r)
        invariant forall a :: a in r <==> a in scan[..i] && a in larger
      {
        assert scan[i] !in scan[..i];
        assert scan[..i + 1] == scan[..i] + [scan[i]];
        if scan[i] in larger {
          r := r + [scan[i]];
        }
      }
      assert scan[..|scan|] == scan;
    }
  }

  /** `gets` are exactly the assets the books from this one get. */
  ghost predicate BooksFrom(t: Tables, asset: Asset, domain: Option<Domain>, gets: set<Asset>) {
    forall o :: o in gets <==> HasExactBook(t, Book(asset, o, domain))
  }

  lemma SetupNext(es: seq<(Key, Entry)>, i: nat)
    requires i < |es|
    ensures Setup(es[..i + 1]) == SetupStep(Setup(es[..i]), es[i].0, es[i].1)
  {
    assert es[..i + 1][..i] == es[..i];
  }

  ghost function EntriesAt(model: map<Key, Item>, keys: seq<Key>): seq<(Key, Entry)>
    requires forall k :: k in keys ==> k in model && model[k].Decoded?
  {
    seq(|keys|, i requires 0 <= i < |keys| => (keys[i], model[keys[i]].entry))
  }
}
