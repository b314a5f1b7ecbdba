// What one book update changes, and what it leaves alone.

module BookChanges {
  import opened Prelude
  import opened LedgerObjects
  import opened BookTables
  import opened BookProofs

  /** Adding a book adds that book and no other, and no tip. */
  lemma AddBookExact(t: Tables, b: Book, c: Book)
    requires Coherent(t)
    ensures HasExactBook(AddBook(t, b), c) <==> HasExactBook(t, c) || c == b
    ensures BookTipOf(AddBook(t, b), c) == BookTipOf(t, c)
  {
    match b.domain
    case Some(d) => InsertedPair(t.domainBooks, (b.pays, d), b.gets);
    case None => InsertedPair(t.allBooks, b.pays, b.gets);
  }

  /** Removing a book removes that book and its tip, and for an open book the
      tip of its token pair; every other book and tip stays. */
  lemma RemoveBookExact(t: Tables, b: Book, c: Book, k: Token, o: Asset)
    requires Coherent(t)
    ensures HasExactBook(RemoveBook(t, b), c) <==> HasExactBook(t, c) && c != b
    ensures BookTipOf(RemoveBook(t, b), c) == if c == b then U64_MAX else BookTipOf(t, c)
    ensures TokenTipOf(RemoveBook(t, b), k, o) ==
            if b.domain.None? && k == TokenOf(b.pays) && o == b.gets then U64_MAX else TokenTipOf(t, k, o)
  {
    RemoveBookBooks(t, b, c);
    RemoveBookTips(t, b, k, o);
  }

  lemma RemoveBookBooks(t: Tables, b: Book, c: Book)
    requires Coherent(t)
    ensures HasExactBook(RemoveBook(t, b), c) <==> HasExactBook(t, c) && c != b
    ensures RemoveBook(t, b).tip == t.tip - {b}
  {
    match b.domain
    case Some(d) => RemovedPair(t.domainBooks, (b.pays, d), b.gets);
    case None => RemovedPair(t.allBooks, b.pays, b.gets);
  }

  lemma RemoveBookTips(t: Tables, b: Book, k: Token, o: Asset)
    ensures TokenTipOf(RemoveBook(t, b), k, o) ==
            if b.domain.None? && k == TokenOf(b.pays) && o == b.gets then U64_MAX else TokenTipOf(t, k, o)
  {
    hide RemoveTokenTip, RemovePair;
    RemovedRow(t, RemoveBook(t, b), TokenOf(b.pays), b.gets, k);
  }

  lemma RemovedRow(t: Tables, u: Tables, k: Token, a: Asset, l: Token)
    ensures u.tokenTip == RemoveTokenTip(t.tokenTip, k, a) ==>
              TipRow(u, l) == if l == k then TipRow(t, l) - {a} else TipRow(t, l)
  {
  }

  lemma InsertThenRemove<K(!new), V(!new)>(m: map<K, set<V>>, k: K, v: V)
    requires Tidy(m)
    ensures RemovePair(InsertPair(m, k, v), k, v) == m <==> !Has(m, k, v)
  {
    InsertedPair(m, k, v);
    RemovedPair(InsertPair(m, k, v), k, v);
    if !Has(m, k, v) {
      TidyEqual(RemovePair(InsertPair(m, k, v), k, v), m);
    } else {
      assert !Has(RemovePair(InsertPair(m, k, v), k, v), k, v);
    }
  }

  /** Removing a book just added restores every adjacency table exactly when the
      book was new and, if open, its token entries were new too. */
  lemma RemoveUndoesAdd(t: Tables, b: Book)
    requires Coherent(t)
    ensures Adjacency(RemoveBook(AddBook(t, b), b)) == Adjacency(t) <==>
            && !HasExactBook(t, b)
            && (b.domain.None? ==>
                  !Has(t.tokenFwd, TokenOf(b.pays), b.gets) && !Has(t.tokenRev, TokenOf(b.gets), b.pays))
  {
    if b.domain.Some? {
      UndoDomain(t, b);
    } else {
      UndoOpen(t, b);
    }
  }

  lemma AddRemoveSet<T>(s: set<T>, x: T)
    ensures x !in s ==> s + {x} - {x} == s
  {
  }

  lemma UndoDomain(t: Tables, b: Book)
    requires Coherent(t) && b.domain.Some?
    ensures Adjacency(RemoveBook(AddBook(t, b), b)) == Adjacency(t) <==> !HasExactBook(t, b)
  {
    hide InsertPair, RemovePair, Coherent, HasExactBook;
    DomainFacts(t, b);
    AddRemoveSet(t.xrpDomainBooks, (b.pays, b.domain.value));
  }

  lemma DomainFacts(t: Tables, b: Book)
    requires Coherent(t) && b.domain.Some?
    ensures var d := b.domain.value;
            && (RemovePair(InsertPair(t.domainBooks, (b.pays, d), b.gets), (b.pays, d), b.gets) == t.domainBooks <==>
                  !HasExactBook(t, b))
            && (!HasExactBook(t, b) ==>
                  RemovePair(InsertPair(t.reverseDomainBooks, (b.gets, d), b.pays), (b.gets, d), b.pays)
                  == t.reverseDomainBooks)
            && (!HasExactBook(t, b) && b.gets.Xrp? ==> (b.pays, d) !in t.xrpDomainBooks)
  {
    hide InsertPair, RemovePair;
    InsertThenRemove(t.domainBooks, (b.pays, b.domain.value), b.gets);
    InsertThenRemove(t.reverseDomainBooks, (b.gets, b.domain.value), b.pays);
  }

  lemma UndoOpen(t: Tables, b: Book)
    requires Coherent(t) && b.domain.None?
    ensures Adjacency(RemoveBook(AddBook(t, b), b)) == Adjacency(t) <==>
            && !HasExactBook(t, b)
            && !Has(t.tokenFwd, TokenOf(b.pays), b.gets) && !Has(t.tokenRev, TokenOf(b.gets), b.pays)
  {
    hide InsertPair, RemovePair, Coherent, HasExactBook, Has;
    OpenFacts(t, b);
    TokenFacts(t, b);
    AddRemoveSet(t.xrpBooks, b.pays);
  }

  lemma OpenFacts(t: Tables, b: Book)
    requires Coherent(t) && b.domain.None?
    ensures RemovePair(InsertPair(t.allBooks, b.pays, b.gets), b.pays, b.gets) == t.allBooks <==> !HasExactBook(t, b)
    ensures !HasExactBook(t, b) ==>
              RemovePair(InsertPair(t.reverseBooks, b.gets, b.pays), b.gets, b.pays) == t.reverseBooks
    ensures !HasExactBook(t, b) && b.gets.Xrp? ==> b.pays !in t.xrpBooks
  {
    hide InsertPair, RemovePair;
    InsertThenRemove(t.allBooks, b.pays, b.gets);
    InsertThenRemove(t.reverseBooks, b.gets, b.pays);
  }

  lemma TokenFacts(t: Tables, b: Book)
    requires Coherent(t)
    ensures var i, o := TokenOf(b.pays), TokenOf(b.gets);
            && (RemovePair(InsertPair(t.tokenFwd, i, b.gets), i, b.gets) == t.tokenFwd <==> !Has(t.tokenFwd, i, b.gets))
            && (RemovePair(InsertPair(t.tokenRev, o, b.pays), o, b.pays) == t.tokenRev <==> !Has(t.tokenRev, o, b.pays))
  {
    hide InsertPair, RemovePair, Has;
    InsertThenRemove(t.tokenFwd, TokenOf(b.pays), b.gets);
    InsertThenRemove(t.tokenRev, TokenOf(b.gets), b.pays);
  }
}
