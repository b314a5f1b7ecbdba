// stripUnknownFields: a recursive copy of a serialized object that leaves out
// every field whose (type, field) code the linked library does not know.

module FieldStripper {
  import opened Prelude

  type Byte = b: int | 0 <= b < 256

  /** The library's table of fields, by type and field code. */
  type Fields = (nat, nat) -> bool

  const STI_AMOUNT: nat := 6
  const STI_OBJECT: nat := 14
  const STI_ARRAY: nat := 15
  const STI_PATHSET: nat := 18
  const STI_ISSUE: nat := 24
  const STI_XCHAIN_BRIDGE: nat := 25

  /** The longest payload a length prefix can be written for. */
  const VL_MAX: nat := 918744

  // ---- Field headers and lengths ----

  predicate Code(n: nat) {
    1 <= n < 256
  }

  function FieldId(t: nat, f: nat): (s: seq<Byte>)
    requires Code(t) && Code(f)
    ensures 1 <= |s| <= 3
  {
    if t < 16 && f < 16 then [t * 16 + f]
    else if t < 16 then [t * 16, f]
    else if f < 16 then [f, t]
    else [0, t, f]
  }

  datatype Header = Header(t: nat, f: nat, rest: seq<Byte>)

  /** SerialIter::getFieldID; None is a throw. */
  function TakeHeader(s: seq<Byte>): (h: Option<Header>)
    ensures h.Some? ==> Code(h.value.t) && Code(h.value.f) && |h.value.rest| < |s|
  {
    if s == [] then None
    else if s[0] >= 16 && s[0] % 16 != 0 then Some(Header(s[0] / 16, s[0] % 16, s[1..]))
    else if |s| < 2 || s[1] < 16 then None
    else if s[0] >= 16 then Some(Header(s[0] / 16, s[1], s[2..]))
    else if s[0] != 0 then Some(Header(s[1], s[0], s[2..]))
    else if |s| < 3 || s[2] < 16 then None
    else Some(Header(s[1], s[2], s[3..]))
  }

  lemma HeaderRoundTrip(t: nat, f: nat, rest: seq<Byte>)
    requires Code(t) && Code(f)
    ensures TakeHeader(FieldId(t, f) + rest) == Some(Header(t, f, rest))
  {
    assert (FieldId(t, f) + rest)[|FieldId(t, f)|..] == rest;
  }

  lemma HeaderIsCanonical(s: seq<Byte>)
    requires TakeHeader(s).Some?
    ensures s == FieldId(TakeHeader(s).value.t, TakeHeader(s).value.f) + TakeHeader(s).value.rest
  {
  }

  /** A decoded length and how many bytes its prefix took; None is a throw. */
  function TakeLength(s: seq<Byte>): (r: Option<(nat, nat)>)
    ensures r.Some? ==> 1 <= r.value.1 <= 3 && r.value.1 <= |s|
  {
    if s == [] then None
    else
      var first: int := s[0];
      if first <= 192 then Some((first, 1))
      else if first <= 240 then
        if |s| < 2 then None else Some((193 + (first - 193) * 256 + s[1] as int, 2))
      else if first <= 254 then
        if |s| < 3 then None
        else Some((12481 + (first - 241) * 65536 + s[1] as int * 256 + s[2] as int, 3))
      else None
  }

  function LengthPrefix(n: nat): seq<Byte>
    requires n <= VL_MAX
  {
    if n <= 192 then [n]
    else if n <= 12480 then [193 + (n - 193) / 256, (n - 193) % 256]
    else [241 + (n - 12481) / 65536, ((n - 12481) / 256) % 256, (n - 12481) % 256]
  }

  lemma LengthRoundTrip(n: nat, rest: seq<Byte>)
    requires n <= VL_MAX
    ensures TakeLength(LengthPrefix(n) + rest) == Some((n, |LengthPrefix(n)|))
  {
  }

  lemma LengthIsCanonical(s: seq<Byte>)
    requires TakeLength(s).Some?
    ensures var (n, used) := TakeLength(s).value;
            && (n + used > VL_MAX + 3 <==> n > VL_MAX)
            && (n <= VL_MAX ==> s[..used] == LengthPrefix(n))
  {
    if TakeLength(s).value.1 == 2 {
      TwoBytes((s[0] as int) - 193, s[1]);
    } else if TakeLength(s).value.1 == 3 {
      ThreeBytes((s[0] as int) - 241, s[1], s[2]);
    }
  }

  lemma TwoBytes(hi: int, lo: int)
    requires 0 <= lo < 256
    ensures (hi * 256 + lo) / 256 == hi && (hi * 256 + lo) % 256 == lo
  {
  }

  lemma ThreeBytes(hi: int, mid: int, lo: int)
    requires 0 <= mid < 256 && 0 <= lo < 256
    ensures var n := hi * 65536 + mid * 256 + lo;
            n / 65536 == hi && (n / 256) % 256 == mid && n % 256 == lo
  {
    var n := hi * 65536 + mid * 256 + lo;
    assert n / 256 == hi * 256 + mid;
  }

  // ---- Payloads that hold no fields ----

  /** Width of the fixed-size types; 0 for the others. */
  function FixedWidth(t: nat): nat {
    match t
    case 16 => 1
    case 1 => 2
    case 2 => 4
    case 10 => 4
    case 3 => 8
    case 11 => 8
    case 20 => 12
    case 9 => 12
    case 4 => 16
    case 17 => 20
    case 26 => 20
    case 21 => 24
    case 5 => 32
    case 22 => 48
    case 23 => 64
    case _ => 0
  }

  predicate HasLength(t: nat) {
    t == 7 || t == 8 || t == 19
  }

  predicate AllZero(s: seq<Byte>) {
    forall i :: 0 <= i < |s| ==> s[i] == 0
  }

  function AtLeast(s: seq<Byte>, n: nat): Option<nat> {
    if |s| < n then None else Some(n)
  }

  function AmountLength(s: seq<Byte>): Option<nat> {
    if |s| < 8 then None
    else if s[0] >= 128 then AtLeast(s, 48)
    else if (s[0] / 32) % 2 == 1 then AtLeast(s, 33)
    else Some(8)
  }

  function IssueLength(s: seq<Byte>): Option<nat> {
    if |s| < 20 then None
    else if AllZero(s[..20]) then Some(20)
    else if |s| < 40 then None
    else if AllZero(s[20..40]) then AtLeast(s, 44)
    else Some(40)
  }

  function Bit(b: Byte, weight: nat): nat
    requires weight > 0
  {
    (b / weight) % 2
  }

  /** What follows a path element's type byte. */
  function ElementLength(b: Byte): nat {
    20 * Bit(b, 1) + 20 * Bit(b, 16) + 24 * Bit(b, 64) + 20 * Bit(b, 32)
  }

  /** One round of the path set loop: a type byte and what it announces. */
  function StepLength(s: seq<Byte>): nat
    requires s != []
  {
    if s[0] == 0 || s[0] == 255 then 1 else 1 + ElementLength(s[0])
  }

  function PathSetLength(s: seq<Byte>): (r: Option<nat>)
    ensures r.Some? ==> 1 <= r.value <= |s|
    decreases |s|
  {
    if s == [] || |s| < StepLength(s) then None
    else if s[0] == 0 then Some(1)
    else Plus(StepLength(s), PathSetLength(s[StepLength(s)..]))
  }

  function Plus(n: nat, more: Option<nat>): Option<nat> {
    if more.None? then None else Some(n + more.value)
  }

  /** Bytes the payload of a field-free type takes; None is a throw. */
  function LeafLength(t: nat, s: seq<Byte>): (r: Option<nat>)
    ensures r.Some? ==> r.value <= |s|
  {
    if FixedWidth(t) > 0 then AtLeast(s, FixedWidth(t))
    else if HasLength(t) then
      var n := TakeLength(s);
      if n.None? then None else AtLeast(s, n.value.1 + n.value.0)
    else if t == STI_AMOUNT then AmountLength(s)
    else if t == STI_ISSUE then IssueLength(s)
    else if t == STI_PATHSET then PathSetLength(s)
    else None
  }

  /** addVL cannot write this payload back. */
  predicate TooLong(t: nat, n: nat) {
    HasLength(t) && n > 3 + VL_MAX
  }

  /** How long a payload is depends on nothing after it. */
  lemma {:induction false} LeafDelimits(t: nat, a: seq<Byte>, b: seq<Byte>, n: nat)
    requires LeafLength(t, a) == Some(n) && n <= |b| && a[..n] == b[..n]
    ensures LeafLength(t, b) == Some(n)
  {
    assert forall i :: 0 <= i < n ==> a[i] == a[..n][i] == b[..n][i] == b[i];
    if t == STI_PATHSET {
      PathSetDelimits(a, b, n);
    } else if t == STI_ISSUE {
      assert a[..20] == b[..20];
      if n >= 40 {
        assert a[20..40] == b[20..40];
      }
    }
  }

  lemma {:induction false} PathSetDelimits(a: seq<Byte>, b: seq<Byte>, n: nat)
    requires PathSetLength(a) == Some(n) && n <= |b|
    requires forall i :: 0 <= i < n ==> a[i] == b[i]
    ensures PathSetLength(b) == Some(n)
    decreases |a|
  {
    if a[0] != 0 {
      var used := StepLength(a);
      PathSetDelimits(a[used..], b[used..], n - used);
    }
  }

  // ---- What the stripper computes ----

  datatype Container = Top | Object | Array

  /** closed: the walk met its own end marker rather than the end of input. */
  datatype Result = Ok(out: seq<Byte>, rest: seq<Byte>, closed: bool) | Throw

  function Prepend(out: seq<Byte>, r: Result): Result {
    if r.Throw? then Throw else Ok(out + r.out, r.rest, r.closed)
  }

  function MarkerType(kind: Container): nat {
    match kind case Top => 0 case Object => STI_OBJECT case Array => STI_ARRAY
  }

  predicate EndMarker(t: nat, f: nat) {
    (t == STI_OBJECT || t == STI_ARRAY) && f == 1
  }

  /** walk on the remaining input; keep says whether there is an output. */
  function Strip(known: Fields, s: seq<Byte>, keep: bool, kind: Container): (r: Result)
    ensures r.Ok? ==> |r.rest| <= |s| && (r.closed || r.rest == []) && (keep || r.out == [])
    ensures r.Ok? && kind.Top? ==> !r.closed
    decreases |s|, 1
  {
    if s == [] then Ok([], [], false)
    else
      var h := TakeHeader(s);
      if h.None? then Throw
      else
        var Header(t, f, rest) := h.value;
        if EndMarker(t, f) then
          if t == MarkerType(kind) then Ok(if keep then FieldId(t, f) else [], rest, true)
          else Strip(known, rest, keep, kind)
        else
          var copy := keep && known(t, f);
          var p := StripPayload(known, rest, copy, t);
          if p.Throw? then Throw
          else Prepend(Kept(copy, FieldId(t, f)) + p.out, Strip(known, p.rest, keep, kind))
  }

  function StripPayload(known: Fields, s: seq<Byte>, keep: bool, t: nat): (r: Result)
    ensures r.Ok? ==> |r.rest| <= |s| && (r.closed || r.rest == []) && (keep || r.out == [])
    decreases |s|, 2
  {
    if t == STI_OBJECT then Strip(known, s, keep, Object)
    else if t == STI_ARRAY then Strip(known, s, keep, Array)
    else if t == STI_XCHAIN_BRIDGE then StripParts(known, s, keep, 4, true)
    else StripLeaf(s, keep, t)
  }

  function StripLeaf(s: seq<Byte>, keep: bool, t: nat): (r: Result)
    ensures r.Ok? ==> |r.rest| <= |s|
  {
    var n := LeafLength(t, s);
    if n.None? || (keep && TooLong(t, n.value)) then Throw
    else Ok(if keep then s[..n.value] else [], s[n.value..], true)
  }

  /** The parts of a bridge are copied whether or not their codes are known. */
  function StripParts(known: Fields, s: seq<Byte>, keep: bool, n: nat, closed: bool): (r: Result)
    ensures r.Ok? ==> |r.rest| <= |s| && (keep || r.out == [])
    ensures r.Ok? && (closed || s == []) ==> r.closed || r.rest == []
    decreases |s|, 1
  {
    if n == 0 then Ok([], s, closed)
    else
      var h := TakeHeader(s);
      if h.None? then Throw
      else
        var Header(t, f, rest) := h.value;
        var p := StripPayload(known, rest, keep, t);
        if p.Throw? then Throw
        else Prepend(Kept(keep, FieldId(t, f)) + p.out, StripParts(known, p.rest, keep, n - 1, p.closed))
  }

  function Kept(keep: bool, s: seq<Byte>): seq<Byte> {
    if keep then s else []
  }

  // ---- Stripping is a filter on parsed trees ----

  datatype Node =
    | Leaf(t: nat, f: nat, payload: seq<Byte>)
    | Nest(t: nat, f: nat, items: seq<Node>)
    | Bridge(t: nat, f: nat, parts: seq<Node>)

  predicate WellFormed(n: Node) {
    match n
    case Leaf(t, _, payload) => LeafLength(t, payload) == Some(|payload|) && !TooLong(t, |payload|)
    case Nest(t, _, items) => (t == STI_OBJECT || t == STI_ARRAY) && AllWellFormed(items) && NoMarkers(items)
    case Bridge(t, _, parts) => t == STI_XCHAIN_BRIDGE && |parts| == 4 && AllWellFormed(parts)
  }

  predicate AllWellFormed(items: seq<Node>) {
    items == [] || (Code(items[0].t) && Code(items[0].f) && WellFormed(items[0]) && AllWellFormed(items[1..]))
  }

  predicate NoMarkers(items: seq<Node>) {
    forall i :: 0 <= i < |items| ==> !EndMarker(items[i].t, items[i].f)
  }

  function Body(n: Node): seq<Byte>
    requires WellFormed(n)
  {
    match n
    case Leaf(_, _, payload) => payload
    case Nest(t, _, items) => EncodeAll(items) + FieldId(t, 1)
    case Bridge(_, _, parts) => EncodeAll(parts)
  }

  function EncodeAll(items: seq<Node>): seq<Byte>
    requires AllWellFormed(items)
  {
    if items == [] then []
    else FieldId(items[0].t, items[0].f) + Body(items[0]) + EncodeAll(items[1..])
  }

  /** Drop the unknown fields at every depth. */
  function FilterAll(known: Fields, items: seq<Node>): (kept: seq<Node>)
    ensures AllWellFormed(items) ==> AllWellFormed(kept)
    ensures NoMarkers(items) ==> NoMarkers(kept)
  {
    if items == [] then []
    else if known(items[0].t, items[0].f) then [FilterIn(known, items[0])] + FilterAll(known, items[1..])
    else FilterAll(known, items[1..])
  }

  function FilterIn(known: Fields, n: Node): (kept: Node)
    ensures WellFormed(n) ==> WellFormed(kept)
    ensures kept.t == n.t && kept.f == n.f
  {
    match n
    case Leaf(_, _, _) => n
    case Nest(t, f, items) => Nest(t, f, FilterAll(known, items))
    case Bridge(t, f, parts) => Bridge(t, f, FilterParts(known, parts))
  }

  function FilterParts(known: Fields, parts: seq<Node>): (kept: seq<Node>)
    ensures |kept| == |parts|
    ensures AllWellFormed(parts) ==> AllWellFormed(kept)
  {
    if parts == [] then [] else [FilterIn(known, parts[0])] + FilterParts(known, parts[1..])
  }

  predicate AllKnown(known: Fields, items: seq<Node>) {
    items == [] || (known(items[0].t, items[0].f) && KnownIn(known, items[0]) && AllKnown(known, items[1..]))
  }

  predicate KnownIn(known: Fields, n: Node) {
    match n
    case Leaf(_, _, _) => true
    case Nest(_, _, items) => AllKnown(known, items)
    case Bridge(_, _, parts) => PartsKnown(known, parts)
  }

  predicate PartsKnown(known: Fields, parts: seq<Node>) {
    parts == [] || (KnownIn(known, parts[0]) && PartsKnown(known, parts[1..]))
  }

  lemma KeptNothing(keep: bool)
    ensures Kept(keep, []) == []
  {
  }

  /** One round of walk's loop on a field. */
  lemma StripField(known: Fields, t: nat, f: nat, rest: seq<Byte>, keep: bool, kind: Container)
    requires Code(t) && Code(f) && !EndMarker(t, f)
    ensures var p := StripPayload(known, rest, keep && known(t, f), t);
            p.Ok? ==> Strip(known, FieldId(t, f) + rest, keep, kind) ==
                      Prepend(Kept(keep && known(t, f), FieldId(t, f)) + p.out, Strip(known, p.rest, keep, kind))
  {
    hide StripPayload;
    HeaderRoundTrip(t, f, rest);
  }

  lemma PrependTwice(a: seq<Byte>, b: seq<Byte>, r: Result)
    ensures Prepend(a, Prepend(b, r)) == Prepend(a + b, r)
    ensures Prepend([], r) == r
  {
    if r.Ok? {
      assert a + (b + r.out) == a + b + r.out;
      assert [] + r.out == r.out;
    }
  }

  lemma PrependForms(a: seq<Byte>, r: Result)
    ensures r.Throw? ==> Prepend(a, r).Throw?
    ensures r.Ok? ==> Prepend(a, r) == Ok(a + r.out, r.rest, r.closed)
  {
  }

  lemma EncodeCons(items: seq<Node>, tail: seq<Byte>)
    requires items != [] && AllWellFormed(items)
    ensures EncodeAll(items) + tail ==
            FieldId(items[0].t, items[0].f) + (Body(items[0]) + (EncodeAll(items[1..]) + tail))
  {
    hide Body, FieldId;
  }

  lemma FilterCons(known: Fields, items: seq<Node>, keep: bool)
    requires items != [] && AllWellFormed(items)
    ensures var n := items[0];
            Kept(keep, EncodeAll(FilterAll(known, items))) ==
            Kept(keep && known(n.t, n.f), FieldId(n.t, n.f)) + Kept(keep && known(n.t, n.f), Body(FilterIn(known, n)))
            + Kept(keep, EncodeAll(FilterAll(known, items[1..])))
  {
    hide Body, FieldId, FilterIn, WellFormed;
    if known(items[0].t, items[0].f) {
      assert FilterAll(known, items)[1..] == FilterAll(known, items[1..]);
    }
  }

  lemma {:induction false} StripItems(known: Fields, items: seq<Node>, tail: seq<Byte>, keep: bool, kind: Container)
    requires AllWellFormed(items) && NoMarkers(items)
    ensures Strip(known, EncodeAll(items) + tail, keep, kind) ==
            Prepend(Kept(keep, EncodeAll(FilterAll(known, items))), Strip(known, tail, keep, kind))
    decreases items
  {
    hide Strip, StripPayload, Body, FieldId, FilterIn, Kept, Prepend;
    if items == [] {
      assert EncodeAll(items) + tail == tail;
      KeptNothing(keep);
      PrependTwice([], [], Strip(known, tail, keep, kind));
    } else {
      var n, more := items[0], EncodeAll(items[1..]) + tail;
      EncodeCons(items, tail);
      StripBody(known, n, more, keep && known(n.t, n.f));
      StripField(known, n.t, n.f, Body(n) + more, keep, kind);
      StripItems(known, items[1..], tail, keep, kind);
      FilterCons(known, items, keep);
      PrependTwice(Kept(keep && known(n.t, n.f), FieldId(n.t, n.f))
                   + Kept(keep && known(n.t, n.f), Body(FilterIn(known, n))),
                   Kept(keep, EncodeAll(FilterAll(known, items[1..]))), Strip(known, tail, keep, kind));
    }
  }

  lemma {:induction false} StripBody(known: Fields, n: Node, tail: seq<Byte>, keep: bool)
    requires WellFormed(n)
    ensures StripPayload(known, Body(n) + tail, keep, n.t) ==
            Ok(Kept(keep, Body(FilterIn(known, n))), tail, true)
    decreases n
  {
    match n
    case Leaf(t, _, payload) =>
      LeafDelimits(t, payload, payload + tail, |payload|);
    case Nest(t, _, items) =>
      var kind := if t == STI_OBJECT then Object else Array;
      assert Body(n) + tail == EncodeAll(items) + (FieldId(t, 1) + tail);
      StripItems(known, items, FieldId(t, 1) + tail, keep, kind);
      HeaderRoundTrip(t, 1, tail);
    case Bridge(_, _, parts) =>
      StripAllParts(known, parts, tail, keep);
  }

  lemma {:induction false} StripAllParts(known: Fields, parts: seq<Node>, tail: seq<Byte>, keep: bool)
    requires AllWellFormed(parts)
    ensures StripParts(known, EncodeAll(parts) + tail, keep, |parts|, true) ==
            Ok(Kept(keep, EncodeAll(FilterParts(known, parts))), tail, true)
    decreases parts
  {
    hide StripParts, StripPayload, Body, FieldId, FilterIn, Kept;
    if parts == [] {
      assert EncodeAll(parts) + tail == tail;
      KeptNothing(keep);
      NoMoreParts(known, tail, keep);
    } else {
      var n, more := parts[0], EncodeAll(parts[1..]) + tail;
      EncodeCons(parts, tail);
      StripBody(known, n, more, keep);
      StripAllParts(known, parts[1..], tail, keep);
      StripPart(known, n.t, n.f, Body(n) + more, keep, |parts|, true);
      FilterPartsCons(known, parts, keep);
    }
  }

  lemma NoMoreParts(known: Fields, s: seq<Byte>, keep: bool)
    ensures StripParts(known, s, keep, 0, true) == Ok([], s, true)
  {
  }

  /** One round of the bridge loop. */
  lemma StripPart(known: Fields, t: nat, f: nat, rest: seq<Byte>, keep: bool, n: nat, closed: bool)
    requires Code(t) && Code(f) && n > 0
    ensures var p := StripPayload(known, rest, keep, t);
            p.Ok? ==> StripParts(known, FieldId(t, f) + rest, keep, n, closed) ==
                      Prepend(Kept(keep, FieldId(t, f)) + p.out, StripParts(known, p.rest, keep, n - 1, p.closed))
  {
    hide StripPayload;
    HeaderRoundTrip(t, f, rest);
  }

  lemma FilterPartsCons(known: Fields, parts: seq<Node>, keep: bool)
    requires parts != [] && AllWellFormed(parts)
    ensures var n := parts[0];
            Kept(keep, EncodeAll(FilterParts(known, parts))) ==
            Kept(keep, FieldId(n.t, n.f)) + Kept(keep, Body(FilterIn(known, n)))
            + Kept(keep, EncodeAll(FilterParts(known, parts[1..])))
  {
    hide Body, FieldId, FilterIn, WellFormed;
  }

  /** The stripper on an encoded tree: the encoding of the filtered tree, with
      the whole input consumed. */
  lemma StripIsFilter(known: Fields, items: seq<Node>)
    requires AllWellFormed(items) && NoMarkers(items)
    ensures Strip(known, EncodeAll(items), true, Top) == Ok(EncodeAll(FilterAll(known, items)), [], false)
  {
    StripItems(known, items, [], true, Top);
    assert EncodeAll(items) + [] == EncodeAll(items);
  }

  lemma {:induction false} FilterKeepsKnown(known: Fields, items: seq<Node>)
    ensures AllKnown(known, FilterAll(known, items))
    ensures AllKnown(known, items) ==> FilterAll(known, items) == items
    decreases items
  {
    if items == [] {
    } else {
      FilterInKeepsKnown(known, items[0]);
      FilterKeepsKnown(known, items[1..]);
      assert items == [items[0]] + items[1..];
    }
  }

  lemma {:induction false} FilterInKeepsKnown(known: Fields, n: Node)
    ensures KnownIn(known, FilterIn(known, n))
    ensures KnownIn(known, n) ==> FilterIn(known, n) == n
    decreases n
  {
    match n
    case Leaf(_, _, _) =>
    case Nest(_, _, items) => FilterKeepsKnown(known, items);
    case Bridge(_, _, parts) => FilterPartsKeepsKnown(known, parts);
  }

  lemma {:induction false} FilterPartsKeepsKnown(known: Fields, parts: seq<Node>)
    ensures PartsKnown(known, FilterParts(known, parts))
    ensures PartsKnown(known, parts) ==> FilterParts(known, parts) == parts
    decreases parts
  {
    if parts == [] {
    } else {
      FilterInKeepsKnown(known, parts[0]);
      FilterPartsKeepsKnown(known, parts[1..]);
      assert parts == [parts[0]] + parts[1..];
    }
  }

  /** Nothing changes when every field is known. */
  lemma KnownFieldsUnchanged(known: Fields, items: seq<Node>)
    requires AllWellFormed(items) && NoMarkers(items) && AllKnown(known, items)
    ensures Strip(known, EncodeAll(items), true, Top) == Ok(EncodeAll(items), [], false)
  {
    StripIsFilter(known, items);
    FilterKeepsKnown(known, items);
  }

  // ---- Stripping twice ----

  /** On any input the stripper accepts, what it wrote reads back as itself. */
  lemma {:induction false} StripAgain(known: Fields, s: seq<Byte>, kind: Container, tail: seq<Byte>)
    requires Strip(known, s, true, kind).Ok?
    requires Strip(known, s, true, kind).closed || tail == []
    ensures var r := Strip(known, s, true, kind);
            Strip(known, r.out + tail, true, kind) == Ok(r.out, tail, r.closed)
    decreases |s|, 1
  {
    var r := Strip(known, s, true, kind);
    if s == [] {
      assert r.out + tail == [];
    } else {
      var Header(t, f, rest) := TakeHeader(s).value;
      if EndMarker(t, f) {
        if t == MarkerType(kind) {
          HeaderRoundTrip(t, f, tail);
        } else {
          StripAgain(known, rest, kind, tail);
        }
      } else {
        var p := StripPayload(known, rest, known(t, f), t);
        StripAgain(known, p.rest, kind, tail);
        var q := Strip(known, p.rest, true, kind);
        if known(t, f) {
          StripPayloadAgain(known, rest, t, q.out + tail);
          Reassemble(FieldId(t, f), p.out, q.out, tail);
          StripField(known, t, f, p.out + (q.out + tail), true, kind);
        } else {
          assert r.out == q.out;
        }
      }
    }
  }

  lemma Reassemble(a: seq<Byte>, b: seq<Byte>, c: seq<Byte>, tail: seq<Byte>)
    ensures a + b + c + tail == a + (b + (c + tail))
  {
  }

  lemma {:induction false} StripPayloadAgain(known: Fields, s: seq<Byte>, t: nat, tail: seq<Byte>)
    requires StripPayload(known, s, true, t).Ok?
    requires StripPayload(known, s, true, t).closed || tail == []
    ensures var r := StripPayload(known, s, true, t);
            StripPayload(known, r.out + tail, true, t) == Ok(r.out, tail, r.closed)
    decreases |s|, 2
  {
    if t == STI_OBJECT {
      StripAgain(known, s, Object, tail);
    } else if t == STI_ARRAY {
      StripAgain(known, s, Array, tail);
    } else if t == STI_XCHAIN_BRIDGE {
      StripPartsAgain(known, s, 4, true, tail);
    } else {
      StripLeafAgain(s, t, tail);
    }
  }

  lemma StripLeafAgain(s: seq<Byte>, t: nat, tail: seq<Byte>)
    requires StripLeaf(s, true, t).Ok?
    ensures var r := StripLeaf(s, true, t); StripLeaf(r.out + tail, true, t) == Ok(r.out, tail, true)
  {
    var n := LeafLength(t, s).value;
    LeafDelimits(t, s, s[..n] + tail, n);
  }

  lemma {:induction false} StripPartsAgain(known: Fields, s: seq<Byte>, n: nat, closed: bool, tail: seq<Byte>)
    requires closed || s == []
    requires StripParts(known, s, true, n, closed).Ok?
    requires StripParts(known, s, true, n, closed).closed || tail == []
    ensures var r := StripParts(known, s, true, n, closed);
            StripParts(known, r.out + tail, true, n, closed) == Ok(r.out, tail, r.closed)
    decreases |s|, 1
  {
    hide StripPayload, FieldId;
    var r := StripParts(known, s, true, n, closed);
    if n == 0 {
      assert r.out + tail == tail;
    } else {
      var Header(t, f, rest) := TakeHeader(s).value;
      var p := StripPayload(known, rest, true, t);
      var q := StripParts(known, p.rest, true, n - 1, p.closed);
      StripPartsAgain(known, p.rest, n - 1, p.closed, tail);
      NothingAfterUnclosed(known, p.rest, n - 1, p.closed);
      StripPayloadAgain(known, rest, t, q.out + tail);
      Reassemble(FieldId(t, f), p.out, q.out, tail);
      StripPart(known, t, f, p.out + (q.out + tail), true, n, closed);
    }
  }

  lemma NothingAfterUnclosed(known: Fields, s: seq<Byte>, n: nat, closed: bool)
    requires closed || s == []
    requires StripParts(known, s, true, n, closed).Ok?
    ensures closed || (StripParts(known, s, true, n, closed) == Ok([], [], false))
  {
  }

  /** Stripping is idempotent on every input it accepts, well formed or not, and
      always reads its input to the end. */
  lemma StripIsIdempotent(known: Fields, s: seq<Byte>)
    requires Strip(known, s, true, Top).Ok?
    ensures Strip(known, s, true, Top).rest == []
    ensures var out := Strip(known, s, true, Top).out; Strip(known, out, true, Top) == Ok(out, [], false)
  {
    var out := Strip(known, s, true, Top).out;
    StripAgain(known, s, Top, []);
    assert out + [] == out;
  }

  // ---- The stripper itself ----

  /** The bytes not read yet; a failed read is the library's throw. */
  class SerialIter {
    var remain: seq<Byte>

    constructor (blob: seq<Byte>)
      ensures remain == blob
    {
      remain := blob;
    }

    method GetRaw(n: nat) returns (raw: Option<seq<Byte>>)
      modifies this
      ensures raw == if n <= |old(remain)| then Some(old(remain)[..n]) else None
      ensures raw.Some? ==> remain == old(remain)[n..]
    {
      if n > |remain| {
        return None;
      }
      raw := Some(remain[..n]);
      remain := remain[n..];
    }

    method GetFieldID() returns (id: Option<(nat, nat)>)
      modifies this
      ensures id.Some? <==> TakeHeader(old(remain)).Some?
      ensures id.Some? ==> TakeHeader(old(remain)) == Some(Header(id.value.0, id.value.1, remain))
    {
      var first := GetRaw(1);
      if first.None? {
        return None;
      }
      var t, f: nat := first.value[0] / 16, first.value[0] % 16;
      if t == 0 {
        var next := GetRaw(1);
        if next.None? || next.value[0] < 16 {
          return None;
        }
        t := next.value[0];
      }
      if f == 0 {
        var next := GetRaw(1);
        if next.None? || next.value[0] < 16 {
          return None;
        }
        f := next.value[0];
      }
      return Some((t, f));
    }

    method GetVLDataLength() returns (n: Option<nat>)
      modifies this
      ensures n.Some? <==> TakeLength(old(remain)).Some?
      ensures n.Some? ==> n.value == TakeLength(old(remain)).value.0
                          && remain == old(remain)[TakeLength(old(remain)).value.1..]
    {
      var b := GetRaw(1);
      if b.None? || b.value[0] == 255 {
        return None;
      }
      var first: int := b.value[0];
      if first <= 192 {
        return Some(first);
      }
      var second := GetRaw(1);
      if second.None? {
        return None;
      }
      if first <= 240 {
        return Some(193 + (first - 193) * 256 + second.value[0] as int);
      }
      var third := GetRaw(1);
      if third.None? {
        return None;
      }
      return Some(12481 + (first - 241) * 65536 + second.value[0] as int * 256 + third.value[0] as int);
    }

    method GetVL() returns (data: Option<seq<Byte>>)
      modifies this
      ensures var n := TakeLength(old(remain));
              data.Some? <==> n.Some? && n.value.1 + n.value.0 <= |old(remain)|
      ensures data.Some? ==>
                var n := TakeLength(old(remain)).value;
                data.value == old(remain)[n.1..n.1 + n.0] && remain == old(remain)[n.1 + n.0..]
    {
      var n := GetVLDataLength();
      if n.None? {
        return None;
      }
      data := GetRaw(n.value);
    }
  }

  class Serializer {
    var data: seq<Byte>

    constructor ()
      ensures data == []
    {
      data := [];
    }

    method AddRaw(raw: seq<Byte>)
      modifies this
      ensures data == old(data) + raw
    {
      data := data + raw;
    }

    method AddFieldID(t: nat, f: nat)
      requires Code(t) && Code(f)
      modifies this
      ensures data == old(data) + FieldId(t, f)
    {
      AddRaw(FieldId(t, f));
    }

    method AddVL(payload: seq<Byte>) returns (ok: bool)
      modifies this
      ensures ok == (|payload| <= VL_MAX)
      ensures ok ==> data == old(data) + (LengthPrefix(|payload|) + payload)
    {
      if |payload| > VL_MAX {
        return false;
      }
      AddRaw(LengthPrefix(|payload|));
      AddRaw(payload);
      return true;
    }
  }

  method CopyBytes(sit: SerialIter, out: Serializer?, n: nat) returns (ok: bool)
    modifies sit, out
    ensures ok == (n <= |old(sit.remain)|)
    ensures ok ==> sit.remain == old(sit.remain)[n..]
    ensures ok && out != null ==> out.data == old(out.data) + old(sit.remain)[..n]
  {
    var raw := sit.GetRaw(n);
    if raw.None? {
      return false;
    }
    if out != null {
      out.AddRaw(raw.value);
    }
    return true;
  }

  method CopyVL(sit: SerialIter, out: Serializer?, t: nat) returns (ok: bool)
    requires HasLength(t)
    modifies sit, out
    ensures var r := StripLeaf(old(sit.remain), out != null, t);
            ok == r.Ok? && (ok ==> sit.remain == r.rest && (out != null ==> out.data == old(out.data) + r.out))
  {
    hide TakeLength, LengthPrefix;
    ghost var s := sit.remain;
    var data := sit.GetVL();
    if data.None? {
      return false;
    }
    LengthIsCanonical(s);
    Consecutive(s, TakeLength(s).value.1, TakeLength(s).value.0);
    ok := true;
    if out != null {
      ok := out.AddVL(data.value);
    }
  }

  method CopyAmount(sit: SerialIter, out: Serializer?) returns (ok: bool)
    modifies sit, out
    ensures var r := StripLeaf(old(sit.remain), out != null, STI_AMOUNT);
            ok == r.Ok? && (ok ==> sit.remain == r.rest && (out != null ==> out.data == old(out.data) + r.out))
  {
    ghost var s := sit.remain;
    var value := sit.GetRaw(8);
    if value.None? {
      return false;
    }
    if out != null {
      out.AddRaw(value.value);
    }
    if value.value[0] < 128 {
      if (value.value[0] / 32) % 2 == 1 {
        ok := CopyBytes(sit, out, 25);
        Consecutive(s, 8, 25);
        return;
      }
      return true;
    }
    ok := CopyBytes(sit, out, 40);
    Consecutive(s, 8, 40);
  }

  method CopyIssue(sit: SerialIter, out: Serializer?) returns (ok: bool)
    modifies sit, out
    ensures var r := StripLeaf(old(sit.remain), out != null, STI_ISSUE);
            ok == r.Ok? && (ok ==> sit.remain == r.rest && (out != null ==> out.data == old(out.data) + r.out))
  {
    ghost var s := sit.remain;
    var first := sit.GetRaw(20);
    if first.None? {
      return false;
    }
    if out != null {
      out.AddRaw(first.value);
    }
    if AllZero(first.value) {
      return true;
    }
    var account := sit.GetRaw(20);
    if account.None? {
      return false;
    }
    Consecutive(s, 20, 20);
    if out != null {
      out.AddRaw(account.value);
    }
    if AllZero(account.value) {
      ok := CopyBytes(sit, out, 4);
      Consecutive(s, 40, 4);
      return;
    }
    return true;
  }

  /** Reading n then m bytes is reading n + m. */
  lemma Consecutive(s: seq<Byte>, n: nat, m: nat)
    ensures n + m <= |s| ==> s[..n] + s[n..][..m] == s[..n + m] && s[n..][m..] == s[n + m..]
    ensures n + m <= |s| ==> s[n..][..m] == s[n..n + m]
  {
  }

  method CopyPathSet(sit: SerialIter, out: Serializer?) returns (ok: bool)
    modifies sit, out
    ensures var r := StripLeaf(old(sit.remain), out != null, STI_PATHSET);
            ok == r.Ok? && (ok ==> sit.remain == r.rest && (out != null ==> out.data == old(out.data) + r.out))
  {
    hide StepLength, PathSetLength;
    ghost var s := sit.remain;
    ghost var used: nat := 0;
    PlusTwice(0, 0, PathSetLength(s));
    var last := false;
    while !last
      invariant used <= |s| && sit.remain == s[used..]
      invariant out != null ==> out.data == old(out.data) + s[..used]
      invariant last ==> PathSetLength(s) == Some(used)
      invariant !last ==> PathSetLength(s) == Plus(used, PathSetLength(s[used..]))
      decreases !last, |sit.remain|
    {
      PathRound(s, used);
      ghost var step := if s[used..] == [] then 0 else StepLength(s[used..]);
      ok, last := CopyElement(sit, out);
      if !ok {
        return;
      }
      PlusTwice(used, step, PathSetLength(s[used + step..]));
      used := used + step;
    }
    return true;
  }

  lemma PathRound(s: seq<Byte>, used: nat)
    requires used <= |s|
    ensures var more := s[used..];
            if more == [] || |more| < StepLength(more) then PathSetLength(more).None?
            else
              && s[..used] + more[..StepLength(more)] == s[..used + StepLength(more)]
              && more[StepLength(more)..] == s[used + StepLength(more)..]
              && PathSetLength(more) ==
                 if more[0] == 0 then Some(StepLength(more))
                 else Plus(StepLength(more), PathSetLength(s[used + StepLength(more)..]))
  {
    hide ElementLength;
    var more := s[used..];
    if more != [] {
      Consecutive(s, used, StepLength(more));
    }
  }

  lemma PlusTwice(a: nat, b: nat, more: Option<nat>)
    ensures Plus(a, Plus(b, more)) == Plus(a + b, more)
    ensures Plus(0, more) == more
  {
  }

  /** One path element: its type byte, then the account, currency, MPT and issuer
      that its bits announce. */
  method CopyElement(sit: SerialIter, out: Serializer?) returns (ok: bool, last: bool)
    modifies sit, out
    ensures ok == (old(sit.remain) != [] && StepLength(old(sit.remain)) <= |old(sit.remain)|)
    ensures ok ==> && last == (old(sit.remain)[0] == 0)
                   && sit.remain == old(sit.remain)[StepLength(old(sit.remain))..]
    ensures ok && out != null ==> out.data == old(out.data) + old(sit.remain)[..StepLength(old(sit.remain))]
    ensures ok ==> |sit.remain| < |old(sit.remain)|
  {
    hide ElementLength;
    last := false;
    ghost var s := sit.remain;
    var t := sit.GetRaw(1);
    if t.None? {
      return false, false;
    }
    if out != null {
      out.AddRaw(t.value);
    }
    if t.value[0] == 0 {
      return true, true;
    }
    if t.value[0] == 255 {
      return true, false;
    }
    ok := CopyAddresses(sit, out, t.value[0]);
    Consecutive(s, 1, ElementLength(t.value[0]));
  }

  method CopyAddresses(sit: SerialIter, out: Serializer?, b: Byte) returns (ok: bool)
    modifies sit, out
    ensures var n := ElementLength(b);
            && ok == (n <= |old(sit.remain)|)
            && (ok ==> sit.remain == old(sit.remain)[n..])
            && (ok && out != null ==> out.data == old(out.data) + old(sit.remain)[..n])
  {
    hide Bit;
    ghost var s := sit.remain;
    ok := CopyPair(sit, out, 20 * Bit(b, 1), 20 * Bit(b, 16));
    if !ok {
      return;
    }
    ok := CopyPair(sit, out, 24 * Bit(b, 64), 20 * Bit(b, 32));
    Consecutive(s, 20 * Bit(b, 1) + 20 * Bit(b, 16), 24 * Bit(b, 64) + 20 * Bit(b, 32));
  }

  method CopyPair(sit: SerialIter, out: Serializer?, n: nat, m: nat) returns (ok: bool)
    modifies sit, out
    ensures ok == (n + m <= |old(sit.remain)|)
    ensures ok ==> sit.remain == old(sit.remain)[n + m..]
    ensures ok && out != null ==> out.data == old(out.data) + old(sit.remain)[..n + m]
  {
    ghost var s := sit.remain;
    ok := CopyBytes(sit, out, n);
    if !ok {
      return;
    }
    ok := CopyBytes(sit, out, m);
    Consecutive(s, n, m);
  }

  method CopyLeaf(sit: SerialIter, out: Serializer?, t: nat) returns (ok: bool)
    requires t != STI_OBJECT && t != STI_ARRAY && t != STI_XCHAIN_BRIDGE
    modifies sit, out
    ensures var r := StripLeaf(old(sit.remain), out != null, t);
            ok == r.Ok? && (ok ==> sit.remain == r.rest && (out != null ==> out.data == old(out.data) + r.out))
  {
    if FixedWidth(t) > 0 {
      ok := CopyBytes(sit, out, FixedWidth(t));
    } else if HasLength(t) {
      ok := CopyVL(sit, out, t);
    } else if t == STI_AMOUNT {
      ok := CopyAmount(sit, out);
    } else if t == STI_ISSUE {
      ok := CopyIssue(sit, out);
    } else if t == STI_PATHSET {
      ok := CopyPathSet(sit, out);
    } else {
      ok := false;
    }
  }

  method Walk(known: Fields, sit: SerialIter, out: Serializer?, kind: Container) returns (ok: bool)
    modifies sit, out
    ensures var r := Strip(known, old(sit.remain), out != null, kind);
            ok == r.Ok? && (ok ==> sit.remain == r.rest && (out != null ==> out.data == old(out.data) + r.out))
    decreases |sit.remain|, 1
  {
    hide Strip, StripPayload, FieldId, TakeHeader, EndMarker, MarkerType, Prepend;
    ghost var s, done: seq<Byte> := sit.remain, [];
    var keep := out != null;
    PrependTwice([], [], Strip(known, s, keep, kind));
    StripNothing(known, keep, kind);
    while sit.remain != []
      invariant |sit.remain| <= |s|
      invariant Strip(known, s, keep, kind) == Prepend(done, Strip(known, sit.remain, keep, kind))
      invariant out != null ==> out.data == old(out.data) + done
      decreases |sit.remain|
    {
      StripRound(known, sit.remain, keep, kind);
      PrependForms(done, Strip(known, sit.remain, keep, kind));
      var id := sit.GetFieldID();
      if id.None? {
        return false;
      }
      var (t, f) := id.value;
      if EndMarker(t, f) {
        if t == MarkerType(kind) {
          if out != null {
            out.AddFieldID(t, f);
          }
          return true;
        }
        continue;
      }
      ghost var p := StripPayload(known, sit.remain, keep && known(t, f), t);
      ok := CopyField(known, sit, out, t, f);
      if !ok {
        return;
      }
      ghost var field := Kept(keep && known(t, f), FieldId(t, f)) + p.out;
      PrependTwice(done, field, Strip(known, sit.remain, keep, kind));
      done := done + field;
    }
    PrependForms(done, Strip(known, [], keep, kind));
    return true;
  }

  lemma StripNothing(known: Fields, keep: bool, kind: Container)
    ensures Strip(known, [], keep, kind) == Ok([], [], false)
  {
  }

  /** walk's loop body, on the specification. */
  lemma StripRound(known: Fields, s: seq<Byte>, keep: bool, kind: Container)
    requires s != []
    ensures TakeHeader(s).None? ==> Strip(known, s, keep, kind).Throw?
    ensures TakeHeader(s).Some? ==>
              var Header(t, f, rest) := TakeHeader(s).value;
              if EndMarker(t, f) then
                Strip(known, s, keep, kind) == if t == MarkerType(kind) then Ok(Kept(keep, FieldId(t, f)), rest, true)
                                               else Strip(known, rest, keep, kind)
              else
                var p := StripPayload(known, rest, keep && known(t, f), t);
                Strip(known, s, keep, kind) ==
                if p.Throw? then Throw
                else Prepend(Kept(keep && known(t, f), FieldId(t, f)) + p.out, Strip(known, p.rest, keep, kind))
  {
    hide StripPayload;
  }

  /** The part of walk's loop after the end markers: header and payload of a
      field, or neither when the field is unknown. */
  method CopyField(known: Fields, sit: SerialIter, out: Serializer?, t: nat, f: nat) returns (ok: bool)
    requires Code(t) && Code(f)
    modifies sit, out
    ensures var keep := out != null && known(t, f);
            var p := StripPayload(known, old(sit.remain), keep, t);
            && ok == p.Ok?
            && (ok ==> sit.remain == p.rest)
            && (ok && out != null ==> out.data == old(out.data) + (Kept(keep, FieldId(t, f)) + p.out))
    decreases |sit.remain|, 3
  {
    hide StripPayload;
    var keep := out != null && known(t, f);
    if keep {
      out.AddFieldID(t, f);
    }
    ok := CopyOrSkipPayload(known, sit, if keep then out else null, t);
  }

  method CopyOrSkipPayload(known: Fields, sit: SerialIter, out: Serializer?, t: nat) returns (ok: bool)
    modifies sit, out
    ensures var r := StripPayload(known, old(sit.remain), out != null, t);
            ok == r.Ok? && (ok ==> sit.remain == r.rest && (out != null ==> out.data == old(out.data) + r.out))
    decreases |sit.remain|, 2
  {
    if t == STI_OBJECT {
      ok := Walk(known, sit, out, Object);
    } else if t == STI_ARRAY {
      ok := Walk(known, sit, out, Array);
    } else if t == STI_XCHAIN_BRIDGE {
      ok := CopyBridge(known, sit, out);
    } else {
      ok := CopyLeaf(sit, out, t);
    }
  }

  method CopyBridge(known: Fields, sit: SerialIter, out: Serializer?) returns (ok: bool)
    modifies sit, out
    ensures var r := StripParts(known, old(sit.remain), out != null, 4, true);
            ok == r.Ok? && (ok ==> sit.remain == r.rest && (out != null ==> out.data == old(out.data) + r.out))
    decreases |sit.remain|, 1
  {
    hide StripParts, StripPayload, FieldId, TakeHeader;
    ghost var s, done: seq<Byte>, closed := sit.remain, [], true;
    var keep := out != null;
    PrependTwice([], [], StripParts(known, s, keep, 4, true));
    var i := 0;
    while i < 4
      invariant i <= 4 && |sit.remain| <= |s|
      invariant StripParts(known, s, keep, 4, true) == Prepend(done, StripParts(known, sit.remain, keep, 4 - i, closed))
      invariant out != null ==> out.data == old(out.data) + done
    {
      PartRound(known, sit.remain, keep, 4 - i, closed);
      var id := sit.GetFieldID();
      if id.None? {
        return false;
      }
      var (t, f) := id.value;
      if out != null {
        out.AddFieldID(t, f);
      }
      ghost var p := StripPayload(known, sit.remain, keep, t);
      ok := CopyOrSkipPayload(known, sit, out, t);
      if !ok {
        return;
      }
      ghost var part := Kept(keep, FieldId(t, f)) + p.out;
      PrependTwice(done, part, StripParts(known, sit.remain, keep, 3 - i, p.closed));
      done, closed, i := done + part, p.closed, i + 1;
    }
    PartRound(known, sit.remain, keep, 0, closed);
    return true;
  }

  lemma PartRound(known: Fields, s: seq<Byte>, keep: bool, n: nat, closed: bool)
    ensures n == 0 ==> StripParts(known, s, keep, n, closed) == Ok([], s, closed)
    ensures n > 0 && TakeHeader(s).None? ==> StripParts(known, s, keep, n, closed).Throw?
    ensures n > 0 && TakeHeader(s).Some? ==>
              var Header(t, f, rest) := TakeHeader(s).value;
              var p := StripPayload(known, rest, keep, t);
              StripParts(known, s, keep, n, closed) ==
              if p.Throw? then Throw
              else Prepend(Kept(keep, FieldId(t, f)) + p.out, StripParts(known, p.rest, keep, n - 1, p.closed))
  {
    hide StripPayload;
  }

  method StripUnknownFields(known: Fields, blob: seq<Byte>) returns (kept: Option<seq<Byte>>)
    ensures var r := Strip(known, blob, true, Top);
            kept == if r.Ok? then Some(r.out) else None
  {
    hide Strip;
    var out := new Serializer();
    var sit := new SerialIter(blob);
    var ok := Walk(known, sit, out, Top);
    ghost var r := Strip(known, blob, true, Top);
    assert r.Ok? ==> [] + r.out == r.out;
    return if ok then Some(out.data) else None;
  }
}
