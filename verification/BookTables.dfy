// What LocalOrderBooks' ten tables hold, as one value, and what its updates
// do to them.

module BookTables {
  import opened Prelude
  import opened LedgerObjects

  // ---- Buckets: hash maps from a key to a set, with no empty set kept ----

  function Bucket<K, V>(m: map<K, set<V>>, k: K): set<V> {
    if k in m then m[k] else {}
  }

  predicate Has<K, V(==)>(m: map<K, set<V>>, k: K, v: V) {
    k in m && v in m[k]
  }

  ghost predicate Tidy<K(!new), V(!new)>(m: map<K, set<V>>) {
    forall k :: k in m ==> m[k] != {}
  }

  function InsertPair<K, V(==)>(m: map<K, set<V>>, k: K, v: V): map<K, set<V>> {
    m[k := Bucket(m, k) + {v}]
  }

  function RemovePair<K, V(==)>(m: map<K, set<V>>, k: K, v: V): map<K, set<V>> {
    if k !in m then m
    else if m[k] - {v} == {} then m - {k}
    else m[k := m[k] - {v}]
  }

  lemma InsertedPair<K(!new), V(!new)>(m: map<K, set<V>>, k: K, v: V)
    requires Tidy(m)
    ensures Tidy(InsertPair(m, k, v))
    ensures forall x, y :: Has(InsertPair(m, k, v), x, y) <==> Has(m, x, y) || (x == k && y == v)
  {
    assert v in Bucket(m, k) + {v};
  }

  lemma RemovedPair<K(!new), V(!new)>(m: map<K, set<V>>, k: K, v: V)
    requires Tidy(m)
    ensures Tidy(RemovePair(m, k, v))
    ensures forall x, y :: Has(RemovePair(m, k, v), x, y) <==> Has(m, x, y) && !(x == k && y == v)
  {
    if k in m && m[k] - {v} == {} {
      forall y | y in m[k]
        ensures y == v
      {
        assert y !in m[k] - {v};
      }
    }
  }

  lemma TidyEqual<K(!new), V(!new)>(a: map<K, set<V>>, b: map<K, set<V>>)
    requires Tidy(a) && Tidy(b)
    requires forall x, y :: Has(a, x, y) <==> Has(b, x, y)
    ensures a == b
  {
    TidySub(a, b);
    TidySub(b, a);
    forall k | k in a
      ensures a[k] == b[k]
    {
      assert forall y :: y in a[k] <==> Has(a, k, y);
      assert forall y :: y in b[k] <==> Has(b, k, y);
    }
  }

  lemma TidySub<K(!new), V(!new)>(a: map<K, set<V>>, b: map<K, set<V>>)
    requires Tidy(a)
    requires forall x, y :: Has(a, x, y) ==> Has(b, x, y)
    ensures forall k :: k in a ==> k in b
  {
    forall k | k in a
      ensures k in b
    {
      var y :| y in a[k];
      assert Has(a, k, y);
    }
  }

  // ---- The tables ----

  datatype Tables = Tables(
    allBooks: map<Asset, set<Asset>>,
    reverseBooks: map<Asset, set<Asset>>,
    xrpBooks: set<Asset>,
    domainBooks: map<(Asset, Domain), set<Asset>>,
    reverseDomainBooks: map<(Asset, Domain), set<Asset>>,
    xrpDomainBooks: set<(Asset, Domain)>,
    tokenFwd: map<Token, set<Asset>>,
    tokenRev: map<Token, set<Asset>>,
    tip: map<Book, Quality>,
    tokenTip: map<Token, map<Asset, Quality>>)

  const EmptyTables := Tables(map[], map[], {}, map[], map[], {}, map[], map[], map[], map[])

  function AddBook(t: Tables, b: Book): Tables {
    match b.domain
    case Some(d) =>
      t.(domainBooks := InsertPair(t.domainBooks, (b.pays, d), b.gets),
         reverseDomainBooks := InsertPair(t.reverseDomainBooks, (b.gets, d), b.pays),
         xrpDomainBooks := if b.gets.Xrp? then t.xrpDomainBooks + {(b.pays, d)} else t.xrpDomainBooks)
    case None =>
      t.(allBooks := InsertPair(t.allBooks, b.pays, b.gets),
         reverseBooks := InsertPair(t.reverseBooks, b.gets, b.pays),
         tokenFwd := InsertPair(t.tokenFwd, TokenOf(b.pays), b.gets),
         tokenRev := InsertPair(t.tokenRev, TokenOf(b.gets), b.pays),
         xrpBooks := if b.gets.Xrp? then t.xrpBooks + {b.pays} else t.xrpBooks)
  }

  function TipRow(t: Tables, k: Token): map<Asset, Quality> {
    if k in t.tokenTip then t.tokenTip[k] else map[]
  }

  function SetQuality(t: Tables, b: Book, q: Quality): Tables {
    t.(tip := t.tip[b := q],
       tokenTip := t.tokenTip[TokenOf(b.pays) := TipRow(t, TokenOf(b.pays))[b.gets := q]])
  }

  function RemoveTokenTip(m: map<Token, map<Asset, Quality>>, k: Token, a: Asset): map<Token, map<Asset, Quality>> {
    if k !in m then m
    else if m[k] - {a} == map[] then m - {k}
    else m[k := m[k] - {a}]
  }

  function RemoveBook(t: Tables, b: Book): Tables {
    match b.domain
    case Some(d) =>
      t.(domainBooks := RemovePair(t.domainBooks, (b.pays, d), b.gets),
         reverseDomainBooks := RemovePair(t.reverseDomainBooks, (b.gets, d), b.pays),
         xrpDomainBooks := if b.gets.Xrp? then t.xrpDomainBooks - {(b.pays, d)} else t.xrpDomainBooks,
         tip := t.tip - {b})
    case None =>
      t.(allBooks := RemovePair(t.allBooks, b.pays, b.gets),
         reverseBooks := RemovePair(t.reverseBooks, b.gets, b.pays),
         tokenFwd := RemovePair(t.tokenFwd, TokenOf(b.pays), b.gets),
         tokenRev := RemovePair(t.tokenRev, TokenOf(b.gets), b.pays),
         xrpBooks := if b.gets.Xrp? then t.xrpBooks - {b.pays} else t.xrpBooks,
         tip := t.tip - {b},
         tokenTip := RemoveTokenTip(t.tokenTip, TokenOf(b.pays), b.gets))
  }

  // ---- Ledger entries as book sources ----

  /** One side of a book directory: an issue, an MPT, or neither. */
  function BookSide(e: Entry, currency: Field, issuer: Field, mpt: Field): Option<Asset> {
    if currency in e.fields then
      Some(if NatField(e, currency) == 0 then Xrp else Issued(NatField(e, currency), NatField(e, issuer)))
    else if mpt in e.fields then Some(Mpt(NatField(e, mpt)))
    else None
  }

  function DirectoryBook(e: Entry): Option<Book> {
    var pays := BookSide(e, TakerPaysCurrency, TakerPaysIssuer, TakerPaysMPT);
    var gets := BookSide(e, TakerGetsCurrency, TakerGetsIssuer, TakerGetsMPT);
    if pays.Some? && gets.Some? then
      Some(Book(pays.value, gets.value, if DomainID in e.fields then Some(NatField(e, DomainID)) else None))
    else None
  }

  predicate IsBookRoot(key: Key, e: Entry) {
    e.kind.code.DirNodeType? && ExchangeRate in e.fields && NatField(e, RootIndex) == key
  }

  /** sfExchangeRate, an unsigned 64-bit field. */
  function Rate(e: Entry): Quality {
    Min(NatField(e, ExchangeRate), U64_MAX)
  }

  predicate HasPoolAssets(e: Entry) {
    PoolAsset in e.fields && PoolAsset2 in e.fields
  }

  predicate HasLiquidity(e: Entry) {
    LPTokenBalance in e.fields && NumField(e, LPTokenBalance) != 0
  }

  function PoolBook(e: Entry): Book {
    Book(AssetFieldOf(e, PoolAsset), AssetFieldOf(e, PoolAsset2), None)
  }

  function Reversed(b: Book): Book {
    Book(b.gets, b.pays, b.domain)
  }

  function AddFromSle(t: Tables, key: Key, e: Entry): Tables {
    if IsBookRoot(key, e) then
      match DirectoryBook(e)
      case None => t
      case Some(b) => SetQuality(AddBook(t, b), b, Rate(e))
    else if e.kind.code.AmmType? && HasLiquidity(e) && HasPoolAssets(e) then
      AddBook(AddBook(t, PoolBook(e)), Reversed(PoolBook(e)))
    else t
  }

  function RemoveFromSle(t: Tables, key: Key, e: Entry): Tables {
    if IsBookRoot(key, e) && RootIndex in e.fields then
      match DirectoryBook(e)
      case None => t
      case Some(b) => RemoveBook(t, b)
    else if e.kind.code.AmmType? && HasPoolAssets(e) then
      RemoveBook(RemoveBook(t, PoolBook(e)), Reversed(PoolBook(e)))
    else t
  }

  /** The better of a stored tip and a new one, as setup keeps it. */
  function BetterQuality(t: Tables, b: Book, q: Quality): Tables {
    var row := TipRow(t, TokenOf(b.pays));
    t.(tip := t.tip[b := if b in t.tip then Min(t.tip[b], q) else q],
       tokenTip := t.tokenTip[TokenOf(b.pays) := row[b.gets := if b.gets in row then Min(row[b.gets], q) else q]])
  }

  /** One step of the setup loop: no liquidity check on pools, the minimum
      for open tips, no tips for domain books. */
  function SetupStep(t: Tables, key: Key, e: Entry): Tables {
    if IsBookRoot(key, e) then
      match DirectoryBook(e)
      case None => t
      case Some(b) => if b.domain.Some? then AddBook(t, b) else BetterQuality(AddBook(t, b), b, Rate(e))
    else if e.kind.code.AmmType? then AddBook(AddBook(t, PoolBook(e)), Reversed(PoolBook(e)))
    else t
  }

  function Setup(es: seq<(Key, Entry)>): Tables {
    if es == [] then EmptyTables
    else SetupStep(Setup(es[..|es| - 1]), es[|es| - 1].0, es[|es| - 1].1)
  }

  /** addFromSle over a ledger, entry by entry, as the snapshot load does. */
  function AddAll(es: seq<(Key, Entry)>): Tables {
    if es == [] then EmptyTables
    else AddFromSle(AddAll(es[..|es| - 1]), es[|es| - 1].0, es[|es| - 1].1)
  }

  // ---- Queries ----

  predicate HasBook(t: Tables, src: Asset, dst: Asset, domain: Option<Domain>) {
    match domain
    case None => Has(t.allBooks, src, dst) || Has(t.tokenFwd, TokenOf(src), dst)
    case Some(d) => Has(t.domainBooks, (src, d), dst)
  }

  function Neighbors(t: Tables, src: Asset, domain: Option<Domain>): set<Asset> {
    match domain
    case None => Bucket(t.allBooks, src) + Bucket(t.tokenFwd, TokenOf(src))
    case Some(d) => Bucket(t.domainBooks, (src, d))
  }

  function Feeders(t: Tables, dst: Asset, domain: Option<Domain>): set<Asset> {
    match domain
    case None => Bucket(t.reverseBooks, dst) + Bucket(t.tokenRev, TokenOf(dst))
    case Some(d) => Bucket(t.reverseDomainBooks, (dst, d))
  }

  function BookSize(t: Tables, src: Asset, domain: Option<Domain>): nat {
    match domain
    case None => |Bucket(t.allBooks, src)|
    case Some(d) => |Bucket(t.domainBooks, (src, d))|
  }

  function TipQuality(t: Tables, src: Asset, dst: Asset, domain: Option<Domain>): Quality {
    var book := Book(src, dst, domain);
    var best := if book in t.tip then t.tip[book] else U64_MAX;
    var row := TipRow(t, TokenOf(src));
    if dst in row && row[dst] < best then row[dst] else best
  }
}
