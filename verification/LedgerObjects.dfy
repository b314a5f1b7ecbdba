// Ledger values: assets, books and decoded ledger entries.

module LedgerObjects {
  import opened Prelude

  /** uint256 object index; only its order matters here. */
  type Key = nat

  /** xrpl::Asset. Every issue whose currency is zero is the native asset. */
  datatype Asset = Xrp | Issued(currency: nat, issuer: nat) | Mpt(id: nat)

  /** xrpl::PathAsset: an asset without its issuer. */
  datatype Token = NativeToken | CurrencyToken(currency: nat) | MptToken(id: nat)

  type Domain = nat

  function TokenOf(a: Asset): Token {
    match a
    case Xrp => NativeToken
    case Issued(c, _) => CurrencyToken(c)
    case Mpt(id) => MptToken(id)
  }

  /** taker pays `pays` and gets `gets` (Book::in and Book::out). */
  datatype Book = Book(pays: Asset, gets: Asset, domain: Option<Domain>)

  datatype EntryCode = OfferType | AmmType | DirNodeType | OtherType(code: nat)

  /** A ledger format: its type, the fields its template admits and the ones
      it requires. */
  datatype Kind = Kind(code: EntryCode, template: set<Field>, required: set<Field>)

  datatype Field =
    | ExchangeRate | RootIndex | DomainID
    | TakerPaysCurrency | TakerPaysIssuer | TakerPaysMPT
    | TakerGetsCurrency | TakerGetsIssuer | TakerGetsMPT
    | LPTokenBalance | PoolAsset | PoolAsset2
    | TakerPays | TakerGets | BookDirectory | Account
    | OtherField(id: nat)

  /** Amounts, hashes and integers are numbers; asset fields hold assets. */
  datatype Value = Num(n: int) | AssetValue(a: Asset)

  datatype Entry = Entry(kind: Kind, fields: map<Field, Value>)

  /** A stored object: one that decodes, or a blob libxrpl cannot parse. */
  datatype Item = Decoded(entry: Entry) | Undecodable(blob: nat)

  function NumField(e: Entry, f: Field): int {
    if f in e.fields && e.fields[f].Num? then e.fields[f].n else 0
  }

  function NatField(e: Entry, f: Field): nat {
    var n := NumField(e, f);
    if n < 0 then 0 else n
  }

  function AssetFieldOf(e: Entry, f: Field): Asset {
    if f in e.fields && e.fields[f].AssetValue? then e.fields[f].a else Xrp
  }
}
