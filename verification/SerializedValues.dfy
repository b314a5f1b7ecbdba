// Serialized objects as the XRP Ledger's binary format writes them: typed values,
// big-endian, with no reference to how the stripper measures them.

module SerializedValues {
  import opened Prelude
  import opened FieldStripper

  // ---- Bytes ----

  function Pow256(n: nat): (p: nat)
    ensures p > 0
  {
    if n == 0 then 1 else 256 * Pow256(n - 1)
  }

  /** A number in so many bytes, the most significant first. */
  function BigEndian(n: nat, width: nat): (s: seq<Byte>)
    ensures |s| == width
  {
    if width == 0 then [] else [(n / Pow256(width - 1)) % 256] + BigEndian(n, width - 1)
  }

  /** Type and field code: nibbles of the first byte where they fit, else a byte each. */
  function FieldHeader(t: nat, f: nat): seq<Byte>
    requires Code(t) && Code(f)
  {
    [(if t < 16 then 16 * t else 0) + (if f < 16 then f else 0)]
    + (if t < 16 then [] else [t]) + (if f < 16 then [] else [f])
  }

  /** A length of up to 918744 in one, two or three bytes. */
  function LengthHeader(n: nat): seq<Byte>
    requires n <= 918744
  {
    if n <= 192 then [n]
    else if n <= 12480 then [193 + (n - 193) / 256, (n - 193) % 256]
    else [241 + (n - 12481) / 65536, (n - 12481) / 256 % 256, (n - 12481) % 256]
  }

  lemma SameHeaders(t: nat, f: nat)
    requires Code(t) && Code(f)
    ensures FieldHeader(t, f) == FieldId(t, f)
  {
  }

  lemma SameLengths(n: nat)
    requires n <= 918744
    ensures LengthHeader(n) == LengthPrefix(n)
  {
  }

  // ---- Values ----

  /** A step of a path, naming at least one of its parts. */
  datatype Element = Element(account: Option<seq<Byte>>, currency: Option<seq<Byte>>, mpt: Option<seq<Byte>>,
                             issuer: Option<seq<Byte>>)

  datatype Value =
    | UInt8(n: nat) | UInt16(n: nat) | UInt32(n: nat) | UInt64(n: nat) | Int32(n: nat) | Int64(n: nat)
    | Bits96(s: seq<Byte>) | Bits128(s: seq<Byte>) | Bits160(s: seq<Byte>) | Bits192(s: seq<Byte>)
    | Bits256(s: seq<Byte>) | Bits384(s: seq<Byte>) | Bits512(s: seq<Byte>)
    | Number(mantissa: nat, exponent: nat) | Currency(s: seq<Byte>)
    | Blob(s: seq<Byte>) | AccountId(s: seq<Byte>) | Hashes(hashes: seq<seq<Byte>>)
    | Drops(positive: bool, drops: nat) | IssuedAmount(bits: nat, currency: seq<Byte>, issuer: seq<Byte>)
    | MptAmount(positive: bool, quantity: nat, id: seq<Byte>)
    | XrpIssue | TokenIssue(currency: seq<Byte>, account: seq<Byte>) | MptIssue(issuer: seq<Byte>, sequence: nat)
    | PathSet(paths: seq<seq<Element>>)

  function TypeCode(v: Value): (t: nat)
    ensures 1 <= t <= 26
  {
    match v
    case UInt16(_) => 1
    case UInt32(_) => 2
    case UInt64(_) => 3
    case Bits128(_) => 4
    case Bits256(_) => 5
    case Drops(_, _) | IssuedAmount(_, _, _) | MptAmount(_, _, _) => 6
    case Blob(_) => 7
    case AccountId(_) => 8
    case Number(_, _) => 9
    case Int32(_) => 10
    case Int64(_) => 11
    case UInt8(_) => 16
    case Bits160(_) => 17
    case PathSet(_) => 18
    case Hashes(_) => 19
    case Bits96(_) => 20
    case Bits192(_) => 21
    case Bits384(_) => 22
    case Bits512(_) => 23
    case XrpIssue | TokenIssue(_, _) | MptIssue(_, _) => 24
    case Currency(_) => 26
  }

  predicate Zero(s: seq<Byte>) {
    forall i :: 0 <= i < |s| ==> s[i] == 0
  }

  predicate SizeIs(s: Option<seq<Byte>>, n: nat) {
    s.Some? ==> |s.value| == n
  }

  predicate ValidElement(e: Element) {
    && (e.account.Some? || e.currency.Some? || e.mpt.Some? || e.issuer.Some?)
    && SizeIs(e.account, 20) && SizeIs(e.currency, 20) && SizeIs(e.mpt, 24) && SizeIs(e.issuer, 20)
  }

  predicate ValidPath(p: seq<Element>) {
    forall i :: 0 <= i < |p| ==> ValidElement(p[i])
  }

  /** Sizes as the type says; amounts in drops up to the native maximum; issues of
      currencies and accounts that are not all zeros. */
  predicate Valid(v: Value) {
    match v
    case Bits96(s) => |s| == 12
    case Bits128(s) => |s| == 16
    case Bits160(s) => |s| == 20
    case Bits192(s) => |s| == 24
    case Bits256(s) => |s| == 32
    case Bits384(s) => |s| == 48
    case Bits512(s) => |s| == 64
    case Currency(s) => |s| == 20
    case Blob(s) => |s| <= 918744
    case AccountId(s) => |s| <= 918744
    case Hashes(hs) => 32 * |hs| <= 918744 && forall i :: 0 <= i < |hs| ==> |hs[i]| == 32
    case Drops(_, drops) => drops <= 100_000_000_000_000_000
    case IssuedAmount(bits, currency, issuer) => bits < 0x8000_0000_0000_0000 && |currency| == |issuer| == 20
    case MptAmount(_, quantity, id) => quantity < 0x8000_0000_0000_0000 && |id| == 24
    case TokenIssue(currency, account) => |currency| == |account| == 20 && !Zero(currency) && !Zero(account)
    case MptIssue(issuer, _) => |issuer| == 20 && !Zero(issuer)
    case PathSet(paths) => forall i :: 0 <= i < |paths| ==> ValidPath(paths[i])
    case _ => true
  }

  function Join(hashes: seq<seq<Byte>>): seq<Byte> {
    if hashes == [] then [] else hashes[0] + Join(hashes[1..])
  }

  function Part(s: Option<seq<Byte>>): seq<Byte> {
    if s.Some? then s.value else []
  }

  /** The flags in the first byte of a step. */
  function Flags(account: bool, currency: bool, issuer: bool, mpt: bool): Byte {
    (if account then 0x01 else 0) + (if currency then 0x10 else 0) + (if issuer then 0x20 else 0)
    + (if mpt then 0x40 else 0)
  }

  /** A step's parts are announced in its first byte. */
  function ElementBytes(e: Element): seq<Byte> {
    [Flags(e.account.Some?, e.currency.Some?, e.issuer.Some?, e.mpt.Some?)]
    + Part(e.account) + Part(e.currency) + Part(e.mpt) + Part(e.issuer)
  }

  function PathBytes(p: seq<Element>): seq<Byte> {
    if p == [] then [] else ElementBytes(p[0]) + PathBytes(p[1..])
  }

  /** Paths are set apart by 0xFF and ended by 0x00. */
  function PathSetBytes(paths: seq<seq<Element>>): seq<Byte> {
    if paths == [] then [0x00]
    else if |paths| == 1 then PathBytes(paths[0]) + [0x00]
    else PathBytes(paths[0]) + [0xFF] + PathSetBytes(paths[1..])
  }

  const ZeroAccount: seq<Byte> := [0, 0, 0, 0, 0, 0, 0, 0, 0, 0, 0, 0, 0, 0, 0, 0, 0, 0, 0, 0]

  function Serialize(v: Value): seq<Byte>
    requires Valid(v)
  {
    match v
    case UInt8(n) => BigEndian(n, 1)
    case UInt16(n) => BigEndian(n, 2)
    case UInt32(n) => BigEndian(n, 4)
    case UInt64(n) => BigEndian(n, 8)
    case Int32(n) => BigEndian(n, 4)
    case Int64(n) => BigEndian(n, 8)
    case Bits96(s) => s
    case Bits128(s) => s
    case Bits160(s) => s
    case Bits192(s) => s
    case Bits256(s) => s
    case Bits384(s) => s
    case Bits512(s) => s
    case Number(mantissa, exponent) => BigEndian(mantissa, 8) + BigEndian(exponent, 4)
    case Currency(s) => s
    case Blob(s) => LengthHeader(|s|) + s
    case AccountId(s) => LengthHeader(|s|) + s
    case Hashes(hashes) => JoinLength(hashes); LengthHeader(|Join(hashes)|) + Join(hashes)
    case Drops(positive, drops) => BigEndian((if positive then 0x4000_0000_0000_0000 else 0) + drops, 8)
    case IssuedAmount(bits, currency, issuer) => BigEndian(0x8000_0000_0000_0000 + bits, 8) + currency + issuer
    case MptAmount(positive, quantity, id) => [if positive then 0x60 else 0x20] + BigEndian(quantity, 8) + id
    case XrpIssue => ZeroAccount
    case TokenIssue(currency, account) => currency + account
    case MptIssue(issuer, sequence) => issuer + ZeroAccount + BigEndian(sequence, 4)
    case PathSet(paths) => PathSetBytes(paths)
  }

  lemma {:induction false} JoinLength(hashes: seq<seq<Byte>>)
    requires forall i :: 0 <= i < |hashes| ==> |hashes[i]| == 32
    ensures |Join(hashes)| == 32 * |hashes|
  {
    if hashes != [] {
      JoinLength(hashes[1..]);
    }
  }

  // ---- The stripper measures every value right ----

  lemma Pow256Of7()
    ensures Pow256(7) == 0x100_0000_0000_0000
  {
    assert Pow256(2) == 0x1_0000;
    assert Pow256(4) == 0x1_0000_0000;
  }

  /** The leading byte tells the kinds of amounts apart. */
  lemma AmountLead(n: nat)
    requires n < 0x1_0000_0000_0000_0000
    ensures BigEndian(n, 8)[0] == n / 0x100_0000_0000_0000
  {
    Pow256Of7();
  }

  lemma AmountDelimited(v: Value, tail: seq<Byte>)
    requires Valid(v) && TypeCode(v) == 6
    ensures LeafLength(6, Serialize(v) + tail) == Some(|Serialize(v)|)
  {
    hide BigEndian;
    var s := Serialize(v) + tail;
    match v
    case Drops(positive, drops) =>
      AmountLead((if positive then 0x4000_0000_0000_0000 else 0) + drops);
      assert s[0] == BigEndian((if positive then 0x4000_0000_0000_0000 else 0) + drops, 8)[0];
    case IssuedAmount(bits, _, _) =>
      AmountLead(0x8000_0000_0000_0000 + bits);
      assert s[0] == BigEndian(0x8000_0000_0000_0000 + bits, 8)[0];
    case MptAmount(positive, _, _) =>
      assert s[0] == if positive then 0x60 else 0x20;
  }

  lemma ZeroAgrees(s: seq<Byte>)
    ensures AllZero(s) <==> Zero(s)
  {
  }

  lemma ZeroAccountIsZero()
    ensures Zero(ZeroAccount) && |ZeroAccount| == 20
  {
  }

  lemma IssueDelimited(v: Value, tail: seq<Byte>)
    requires Valid(v) && TypeCode(v) == 24
    ensures LeafLength(24, Serialize(v) + tail) == Some(|Serialize(v)|)
  {
    hide BigEndian, AllZero, Zero;
    var s := Serialize(v) + tail;
    ZeroAccountIsZero();
    ZeroAgrees(ZeroAccount);
    match v
    case XrpIssue => assert s[..20] == ZeroAccount;
    case TokenIssue(currency, account) =>
      ZeroAgrees(currency);
      ZeroAgrees(account);
      assert s[..20] == currency && s[20..40] == account;
    case MptIssue(issuer, sequence) =>
      ZeroAgrees(issuer);
      assert s[..20] == issuer && s[20..40] == ZeroAccount;
  }

  lemma VLDelimited(t: nat, s: seq<Byte>, tail: seq<Byte>)
    requires (t == 7 || t == 8 || t == 19) && |s| <= 918744
    ensures LeafLength(t, LengthHeader(|s|) + s + tail) == Some(|LengthHeader(|s|) + s|)
    ensures !TooLong(t, |LengthHeader(|s|) + s|)
  {
    hide TakeLength, LengthPrefix, LengthHeader;
    SameLengths(|s|);
    LengthRoundTrip(|s|, s + tail);
    assert LengthHeader(|s|) + s + tail == LengthPrefix(|s|) + (s + tail);
    PrefixIsShort(|s|);
  }

  lemma PrefixIsShort(n: nat)
    requires n <= 918744
    ensures 1 <= |LengthPrefix(n)| <= 3
  {
  }

  lemma FlagsAnnounce(account: bool, currency: bool, issuer: bool, mpt: bool)
    ensures var b := Flags(account, currency, issuer, mpt);
            && (b == 0 <==> !(account || currency || issuer || mpt)) && b != 255
            && ElementLength(b) == (if account then 20 else 0) + (if currency then 20 else 0)
                                   + (if mpt then 24 else 0) + (if issuer then 20 else 0)
  {
  }

  lemma ElementStep(e: Element, tail: seq<Byte>)
    requires ValidElement(e)
    ensures var s := ElementBytes(e) + tail; StepLength(s) == |ElementBytes(e)| && s[0] != 0
  {
    hide ElementLength;
    FlagsAnnounce(e.account.Some?, e.currency.Some?, e.issuer.Some?, e.mpt.Some?);
  }

  lemma {:induction false} PathDelimited(p: seq<Element>, tail: seq<Byte>)
    requires ValidPath(p)
    ensures PathSetLength(PathBytes(p) + tail) == Plus(|PathBytes(p)|, PathSetLength(tail))
  {
    hide StepLength, ElementBytes, ValidElement, Plus;
    if p == [] {
      assert PathBytes(p) + tail == tail;
      PlusTwice(0, 0, PathSetLength(tail));
    } else {
      var e, more := ElementBytes(p[0]), PathBytes(p[1..]) + tail;
      ElementStep(p[0], more);
      PathDelimited(p[1..], tail);
      assert PathBytes(p) + tail == e + more && (e + more)[|e|..] == more;
      PlusTwice(|e|, |PathBytes(p[1..])|, PathSetLength(tail));
    }
  }

  lemma PathEnds(tail: seq<Byte>)
    ensures PathSetLength([0x00] + tail) == Some(1)
    ensures PathSetLength([0xFF] + tail) == Plus(1, PathSetLength(tail))
  {
    assert ([0xFF] + tail)[1..] == tail;
  }

  lemma PlusSome(n: nat, m: nat)
    ensures Plus(n, Some(m)) == Some(n + m)
  {
  }

  lemma {:induction false} PathSetDelimited(paths: seq<seq<Element>>, tail: seq<Byte>)
    requires forall i :: 0 <= i < |paths| ==> ValidPath(paths[i])
    ensures PathSetLength(PathSetBytes(paths) + tail) == Some(|PathSetBytes(paths)|)
  {
    hide PathBytes, ElementLength, ValidPath, Plus, PathSetLength;
    if paths == [] {
      PathEnds(tail);
    } else {
      var p := PathBytes(paths[0]);
      if |paths| == 1 {
        PathDelimited(paths[0], [0x00] + tail);
        PathEnds(tail);
        PlusSome(|p|, 1);
        assert PathSetBytes(paths) + tail == p + ([0x00] + tail);
      } else {
        var more := PathSetBytes(paths[1..]) + tail;
        PathSetDelimited(paths[1..], tail);
        PathDelimited(paths[0], [0xFF] + more);
        PathEnds(more);
        PlusSome(1, |PathSetBytes(paths[1..])|);
        PlusSome(|p|, 1 + |PathSetBytes(paths[1..])|);
        assert PathSetBytes(paths) + tail == p + ([0xFF] + more);
      }
    }
  }

  /** Whatever follows a value, the stripper takes its payload to be exactly the
      value's own bytes. */
  lemma ValueDelimited(v: Value, tail: seq<Byte>)
    requires Valid(v)
    ensures LeafLength(TypeCode(v), Serialize(v) + tail) == Some(|Serialize(v)|)
    ensures !TooLong(TypeCode(v), |Serialize(v)|)
  {
    hide BigEndian, LengthHeader, PathSetBytes, PathSetLength, Join, AmountLength, IssueLength, TakeLength;
    match v
    case Drops(_, _) => AmountDelimited(v, tail);
    case IssuedAmount(_, _, _) => AmountDelimited(v, tail);
    case MptAmount(_, _, _) => AmountDelimited(v, tail);
    case XrpIssue => IssueDelimited(v, tail);
    case TokenIssue(_, _) => IssueDelimited(v, tail);
    case MptIssue(_, _) => IssueDelimited(v, tail);
    case Blob(s) => VLDelimited(7, s, tail);
    case AccountId(s) => VLDelimited(8, s, tail);
    case Hashes(hashes) =>
      JoinLength(hashes);
      VLDelimited(19, Join(hashes), tail);
    case PathSet(paths) => PathSetDelimited(paths, tail);
    case _ =>
  }

  /** A value cut short makes the stripper throw. */
  lemma ValueCutShort(v: Value, n: nat)
    requires Valid(v) && n < |Serialize(v)|
    ensures LeafLength(TypeCode(v), Serialize(v)[..n]).None?
  {
    hide Serialize, LeafLength, TypeCode;
    var s := Serialize(v);
    ValueDelimited(v, []);
    assert s + [] == s;
    if LeafLength(TypeCode(v), s[..n]).Some? {
      var k := LeafLength(TypeCode(v), s[..n]).value;
      assert s[..n][..k] == s[..k];
      LeafDelimits(TypeCode(v), s[..n], s, k);
    }
  }

  /** Any other type makes it throw too, kept or not. */
  lemma OtherTypesThrow(known: Fields, s: seq<Byte>, keep: bool, t: nat)
    requires t !in {1, 2, 3, 4, 5, 6, 7, 8, 9, 10, 11, 14, 15, 16, 17, 18, 19, 20, 21, 22, 23, 24, 25, 26}
    ensures StripPayload(known, s, keep, t).Throw?
  {
  }

  // ---- Objects of typed values ----

  datatype Field =
    | Plain(f: nat, v: Value)
    | ObjectOf(f: nat, fields: seq<Field>)
    | ArrayOf(f: nat, fields: seq<Field>)
    | BridgeOf(f: nat, fields: seq<Field>)

  function FieldType(x: Field): (t: nat)
    ensures 1 <= t <= 26
  {
    match x
    case Plain(_, v) => TypeCode(v)
    case ObjectOf(_, _) => 14
    case ArrayOf(_, _) => 15
    case BridgeOf(_, _) => 25
  }

  /** A bridge has four parts. */
  predicate ValidField(x: Field) {
    match x
    case Plain(_, v) => Valid(v)
    case ObjectOf(_, fields) => ValidFields(fields) && NoEndCodes(fields)
    case ArrayOf(_, fields) => ValidFields(fields) && NoEndCodes(fields)
    case BridgeOf(_, parts) => |parts| == 4 && ValidFields(parts)
  }

  /** Field codes fit a byte. */
  predicate ValidFields(fields: seq<Field>) {
    fields == [] || (1 <= fields[0].f < 256 && ValidField(fields[0]) && ValidFields(fields[1..]))
  }

  /** Code 1 of objects and arrays is their end marker and names no field. */
  predicate NoEndCodes(fields: seq<Field>) {
    forall i :: 0 <= i < |fields| && (fields[i].ObjectOf? || fields[i].ArrayOf?) ==> fields[i].f != 1
  }

  function FieldsBytes(fields: seq<Field>): seq<Byte>
    requires ValidFields(fields)
  {
    if fields == [] then []
    else FieldHeader(FieldType(fields[0]), fields[0].f) + FieldBytes(fields[0]) + FieldsBytes(fields[1..])
  }

  function FieldBytes(x: Field): seq<Byte>
    requires ValidField(x)
  {
    match x
    case Plain(_, v) => Serialize(v)
    case ObjectOf(_, fields) => FieldsBytes(fields) + [0xE1]
    case ArrayOf(_, fields) => FieldsBytes(fields) + [0xF1]
    case BridgeOf(_, parts) => FieldsBytes(parts)
  }

  /** Without its unknown fields, at every depth; the parts of a bridge all stay. */
  function KnownFields(known: Fields, fields: seq<Field>): seq<Field> {
    if fields == [] then []
    else
      (if known(FieldType(fields[0]), fields[0].f) then [KnownField(known, fields[0])] else [])
      + KnownFields(known, fields[1..])
  }

  function KnownField(known: Fields, x: Field): Field {
    match x
    case Plain(_, _) => x
    case ObjectOf(f, fields) => ObjectOf(f, KnownFields(known, fields))
    case ArrayOf(f, fields) => ArrayOf(f, KnownFields(known, fields))
    case BridgeOf(f, parts) => BridgeOf(f, KnownParts(known, parts))
  }

  function KnownParts(known: Fields, parts: seq<Field>): seq<Field> {
    if parts == [] then [] else [KnownField(known, parts[0])] + KnownParts(known, parts[1..])
  }

  /** The same field as the stripper's proofs see it: payloads are bytes. */
  function NodeOf(x: Field): Node
    requires ValidField(x)
  {
    match x
    case Plain(f, v) => Leaf(TypeCode(v), f, Serialize(v))
    case ObjectOf(f, fields) => Nest(14, f, NodesOf(fields))
    case ArrayOf(f, fields) => Nest(15, f, NodesOf(fields))
    case BridgeOf(f, parts) => Bridge(25, f, NodesOf(parts))
  }

  function NodesOf(fields: seq<Field>): (nodes: seq<Node>)
    requires ValidFields(fields)
    ensures |nodes| == |fields|
  {
    if fields == [] then [] else [NodeOf(fields[0])] + NodesOf(fields[1..])
  }

  lemma {:induction false} NodesAgree(fields: seq<Field>)
    requires ValidFields(fields)
    ensures AllWellFormed(NodesOf(fields)) && EncodeAll(NodesOf(fields)) == FieldsBytes(fields)
    ensures NoEndCodes(fields) ==> NoMarkers(NodesOf(fields))
    decreases fields
  {
    hide Serialize, WellFormed, Body, FieldHeader, FieldId, FieldBytes, TypeCode;
    if fields != [] {
      var nodes := NodesOf(fields);
      assert nodes[1..] == NodesOf(fields[1..]) && nodes[0] == NodeOf(fields[0]);
      NodeAgrees(fields[0]);
      NodesAgree(fields[1..]);
      SameHeaders(FieldType(fields[0]), fields[0].f);
      FirstMarker(fields);
    }
  }

  lemma FirstMarker(fields: seq<Field>)
    requires fields != [] && ValidFields(fields)
    ensures NoEndCodes(fields) ==> NoEndCodes(fields[1..]) && !EndMarker(NodeOf(fields[0]).t, NodeOf(fields[0]).f)
  {
    hide Serialize;
    assert forall i :: 0 <= i < |fields| - 1 ==> fields[1..][i] == fields[i + 1];
  }

  lemma {:induction false} NodeAgrees(x: Field)
    requires ValidField(x)
    ensures var n := NodeOf(x);
            && n.t == FieldType(x) && n.f == x.f && Code(n.t)
            && WellFormed(n) && Body(n) == FieldBytes(x)
    decreases x
  {
    hide Serialize, LeafLength, TooLong;
    match x
    case Plain(_, v) =>
      ValueDelimited(v, []);
      assert Serialize(v) + [] == Serialize(v);
    case ObjectOf(_, fields) => NodesAgree(fields);
    case ArrayOf(_, fields) => NodesAgree(fields);
    case BridgeOf(_, parts) => NodesAgree(parts);
  }

  lemma {:induction false} FiltersAgree(known: Fields, fields: seq<Field>)
    requires ValidFields(fields)
    ensures ValidFields(KnownFields(known, fields)) && (NoEndCodes(fields) ==> NoEndCodes(KnownFields(known, fields)))
    ensures NodesOf(KnownFields(known, fields)) == FilterAll(known, NodesOf(fields))
    decreases fields
  {
    hide Serialize, FilterIn, TypeCode;
    if fields != [] {
      var nodes := NodesOf(fields);
      assert nodes[1..] == NodesOf(fields[1..]) && nodes[0] == NodeOf(fields[0]);
      FilterAgrees(known, fields[0]);
      FiltersAgree(known, fields[1..]);
      FirstMarker(fields);
      if known(FieldType(fields[0]), fields[0].f) {
        OneFieldMore(KnownField(known, fields[0]), KnownFields(known, fields[1..]));
      } else {
        assert KnownFields(known, fields) == KnownFields(known, fields[1..]);
      }
    }
  }

  lemma OneFieldMore(x: Field, rest: seq<Field>)
    requires 1 <= x.f < 256 && ValidField(x) && ValidFields(rest)
    ensures ValidFields([x] + rest) && NodesOf([x] + rest) == [NodeOf(x)] + NodesOf(rest)
  {
    hide NodeOf, ValidField;
    assert ([x] + rest)[1..] == rest;
  }

  lemma {:induction false} FilterAgrees(known: Fields, x: Field)
    requires ValidField(x)
    ensures var y := KnownField(known, x);
            && ValidField(y) && FieldType(y) == FieldType(x) && y.f == x.f
            && (y.ObjectOf? <==> x.ObjectOf?) && (y.ArrayOf? <==> x.ArrayOf?)
            && NodeOf(y) == FilterIn(known, NodeOf(x))
            && NodeOf(x).t == FieldType(x) && NodeOf(x).f == x.f
    decreases x
  {
    hide Serialize, TypeCode;
    match x
    case Plain(_, _) =>
    case ObjectOf(_, fields) => FiltersAgree(known, fields);
    case ArrayOf(_, fields) => FiltersAgree(known, fields);
    case BridgeOf(_, parts) => PartsAgree(known, parts);
  }

  lemma {:induction false} PartsAgree(known: Fields, parts: seq<Field>)
    requires ValidFields(parts)
    ensures |KnownParts(known, parts)| == |parts| && ValidFields(KnownParts(known, parts))
    ensures NodesOf(KnownParts(known, parts)) == FilterParts(known, NodesOf(parts))
    decreases parts
  {
    hide Serialize, FilterIn, TypeCode;
    if parts != [] {
      var nodes := NodesOf(parts);
      assert nodes[1..] == NodesOf(parts[1..]) && nodes[0] == NodeOf(parts[0]);
      FilterAgrees(known, parts[0]);
      PartsAgree(known, parts[1..]);
      OneFieldMore(KnownField(known, parts[0]), KnownParts(known, parts[1..]));
    }
  }

  /** Stripping a serialized object of typed values, of every type and nested to any
      depth, gives the serialization of the object without its unknown fields. */
  lemma StripTypedObject(known: Fields, fields: seq<Field>)
    requires ValidFields(fields) && NoEndCodes(fields)
    ensures ValidFields(KnownFields(known, fields))
    ensures Strip(known, FieldsBytes(fields), true, Top) == Ok(FieldsBytes(KnownFields(known, fields)), [], false)
  {
    hide Strip, FieldsBytes, EncodeAll, NodesOf, FilterAll;
    FiltersAgree(known, fields);
    NodesAgree(fields);
    NodesAgree(KnownFields(known, fields));
    StripIsFilter(known, NodesOf(fields));
  }

  /** An end marker of an object outside an object, or of an array outside an array,
      is passed over and leaves no trace. */
  lemma StrayMarkersPassed(known: Fields, s: seq<Byte>, keep: bool, kind: Container)
    ensures kind != Container.Object ==> Strip(known, [0xE1] + s, keep, kind) == Strip(known, s, keep, kind)
    ensures kind != Container.Array ==> Strip(known, [0xF1] + s, keep, kind) == Strip(known, s, keep, kind)
    ensures kind == Container.Object ==>
              Strip(known, [0xE1] + s, keep, kind) == Ok(if keep then [0xE1] else [], s, true)
    ensures kind == Container.Array ==>
              Strip(known, [0xF1] + s, keep, kind) == Ok(if keep then [0xF1] else [], s, true)
  {
    hide Strip, StripPayload, TakeHeader, FieldId;
    Markers();
    HeaderRoundTrip(14, 1, s);
    HeaderRoundTrip(15, 1, s);
    StripRound(known, [0xE1] + s, keep, kind);
    StripRound(known, [0xF1] + s, keep, kind);
  }

  lemma Markers()
    ensures FieldId(14, 1) == [0xE1] && FieldId(15, 1) == [0xF1]
  {
  }

  /** Input that ends inside an object or an array is taken as it is, without the
      missing end marker. */
  lemma UnclosedIsTaken(known: Fields, fields: seq<Field>, kind: Container)
    requires ValidFields(fields) && NoEndCodes(fields)
    ensures ValidFields(KnownFields(known, fields))
    ensures Strip(known, FieldsBytes(fields), true, kind) == Ok(FieldsBytes(KnownFields(known, fields)), [], false)
  {
    hide FieldsBytes, EncodeAll, NodesOf, FilterAll, StripPayload;
    FiltersAgree(known, fields);
    NodesAgree(fields);
    NodesAgree(KnownFields(known, fields));
    StripItems(known, NodesOf(fields), [], true, kind);
    assert FieldsBytes(fields) + [] == FieldsBytes(fields);
    assert FieldsBytes(KnownFields(known, fields)) + [] == FieldsBytes(KnownFields(known, fields));
  }
}
