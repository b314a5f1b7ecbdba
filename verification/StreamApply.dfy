// The stream protocol: ledgerClosed and transaction messages applied to the
// builder's ledger, with the skip, gap and parent checks, and what a run over
// the queued stream publishes.

module StreamApply {
  import opened Prelude
  import opened LedgerObjects
  import opened LedgerStore
  import opened MetaNodes
  import opened Replay

  datatype Message =
    | LedgerClosed(index: Option<nat>, hash: Option<nat>, parentHash: Option<nat>)
    | Transaction(txIndex: nat, validated: bool, nodes: Option<seq<MetaNode>>)

  datatype Published = Published(header: Header, open: bool, objects: map<Key, Item>)

  datatype EngineState = EngineState(
    objects: map<Key, Item>,
    header: Header,
    open: bool,
    currentSeq: nat,
    ready: bool,
    needResync: bool,
    dirty: bool,
    views: seq<Published>)

  predicate ShouldApplyStreamTx(txSeq: nat, currentSeq: nat) {
    txSeq == 0 || currentSeq <= txSeq
  }

  function IndexOf(m: Message): nat
    requires m.LedgerClosed?
  {
    if m.index.Some? then m.index.value else 0
  }

  /** The header a close gives: its own values, else the previous ones; without
      a parent hash, the previous ledger's hash if that is known. */
  function ClosedHeader(prev: Header, m: Message): Header
    requires m.LedgerClosed?
  {
    var parent := if m.parentHash.Some? then m.parentHash.value
                  else if prev.hash != 0 then prev.hash
                  else prev.parentHash;
    Header(if m.index.Some? then m.index.value else prev.index,
           if m.hash.Some? then m.hash.value else prev.hash,
           parent)
  }

  predicate ClosesStale(currentSeq: nat, m: Message)
    requires m.LedgerClosed?
  {
    IndexOf(m) != 0 && IndexOf(m) <= currentSeq
  }

  predicate ClosesWithGap(currentSeq: nat, m: Message)
    requires m.LedgerClosed?
  {
    IndexOf(m) != 0 && currentSeq != 0 && currentSeq + 1 < IndexOf(m)
  }

  predicate ParentMismatch(prev: Header, m: Message)
    requires m.LedgerClosed?
  {
    && m.parentHash.Some? && prev.index != 0 && prev.hash != 0
    && m.parentHash.value != 0 && m.parentHash.value != prev.hash
  }

  function Publishing(s: EngineState): EngineState {
    s.(views := s.views + [Published(s.header, s.open, s.objects)], dirty := false)
  }

  function OnLedgerClosed(s: EngineState, m: Message): EngineState
    requires m.LedgerClosed?
  {
    if !s.ready || ClosesStale(s.currentSeq, m) then s
    else
      var header := ClosedHeader(s.header, m);
      Publishing(s.(header := header, open := false, currentSeq := header.index,
                    needResync := s.needResync || ClosesWithGap(s.currentSeq, m) || ParentMismatch(s.header, m)))
  }

  /** Some node of the log changed something. */
  predicate AnyApplied(objects: map<Key, Item>, log: seq<MetaNode>) {
    exists i :: 0 <= i < |log| && Outcome(ItemAt(ObjectsAfter(objects, log[..i]), log[i].key), log[i]) != NoChange
  }

  predicate Accepts(s: EngineState, m: Message)
    requires m.Transaction?
  {
    s.ready && ShouldApplyStreamTx(m.txIndex, s.currentSeq) && m.validated
  }

  function OnTransaction(s: EngineState, m: Message): EngineState
    requires m.Transaction?
  {
    if !Accepts(s, m) then s
    else if m.nodes.None? then s.(open := true)
    else s.(open := true,
            objects := ObjectsAfter(s.objects, m.nodes.value),
            dirty := s.dirty || AnyApplied(s.objects, m.nodes.value))
  }

  function OnMessage(s: EngineState, m: Message): EngineState {
    if m.LedgerClosed? then OnLedgerClosed(s, m) else OnTransaction(s, m)
  }

  /** The tick between batches republishes a changed builder. */
  function OnTick(s: EngineState): EngineState {
    if s.dirty then Publishing(s) else s
  }

  function OnMessages(s: EngineState, ms: seq<Message>): EngineState {
    if ms == [] then s else OnMessage(OnMessages(s, ms[..|ms| - 1]), ms[|ms| - 1])
  }

  // ---- Chaining, for any messages and ticks at all ----

  function ClosedHeaders(views: seq<Published>): seq<Header> {
    if views == [] then []
    else
      var rest := ClosedHeaders(views[..|views| - 1]);
      if views[|views| - 1].open then rest else rest + [views[|views| - 1].header]
  }

  predicate Linked(a: Header, b: Header) {
    b.index == a.index + 1 && (b.parentHash == a.hash || a.hash == 0 || b.parentHash == 0)
  }

  predicate Chained(hs: seq<Header>) {
    forall i :: 0 <= i < |hs| - 1 ==> Linked(hs[i], hs[i + 1])
  }

  /** What the apply thread does next: a message or a tick. */
  datatype Input = Deliver(m: Message) | TickNow

  function OnInput(s: EngineState, i: Input): EngineState {
    if i.Deliver? then OnMessage(s, i.m) else OnTick(s)
  }

  function OnInputs(s: EngineState, inputs: seq<Input>): EngineState {
    if inputs == [] then s else OnInput(OnInputs(s, inputs[..|inputs| - 1]), inputs[|inputs| - 1])
  }

  /** The closes among the messages carry a ledger index. */
  predicate Indexed(inputs: seq<Input>) {
    forall i :: 0 <= i < |inputs| && inputs[i].Deliver? && inputs[i].m.LedgerClosed? ==> IndexOf(inputs[i].m) != 0
  }

  lemma OneMoreView(views: seq<Published>, v: Published)
    ensures ClosedHeaders(views + [v]) == if v.open then ClosedHeaders(views) else ClosedHeaders(views) + [v.header]
  {
    assert (views + [v])[..|views + [v]| - 1] == views;
  }

  /** The closed views since `past` are chained and end at the current header,
      unless a resync was requested. */
  ghost predicate InChain(start: Header, past: nat, s: EngineState) {
    && past <= |s.views|
    && var closed := ClosedHeaders(s.views[past..]);
    && s.header.index == s.currentSeq != 0
    && (s.dirty ==> s.open)
    && (!s.needResync ==> Chained([start] + closed) && ([start] + closed)[|closed|] == s.header)
  }

  lemma CloseLinks(s: EngineState, m: Message)
    requires m.LedgerClosed? && IndexOf(m) != 0 && s.header.index == s.currentSeq != 0
    ensures var r := OnLedgerClosed(s, m);
            || r == s
            || (&& r.views == s.views + [Published(r.header, false, r.objects)]
                && r.header.index == r.currentSeq != 0 && !r.dirty
                && (!r.needResync ==> !s.needResync && Linked(s.header, r.header)))
  {
  }

  lemma CloseInChain(start: Header, past: nat, s: EngineState, m: Message)
    requires InChain(start, past, s) && m.LedgerClosed? && IndexOf(m) != 0
    ensures InChain(start, past, OnLedgerClosed(s, m))
    ensures s.needResync ==> OnLedgerClosed(s, m).needResync
  {
    hide OnLedgerClosed, Linked, ClosedHeaders;
    CloseLinks(s, m);
    var r := OnLedgerClosed(s, m);
    if r != s {
      var hs := [start] + ClosedHeaders(s.views[past..]);
      assert r.views[past..] == s.views[past..] + [Published(r.header, false, r.objects)];
      OneMoreView(s.views[past..], Published(r.header, false, r.objects));
      assert [start] + ClosedHeaders(r.views[past..]) == hs + [r.header];
      if !r.needResync {
        ChainGrows(hs, r.header);
      }
    }
  }

  lemma InputInChain(start: Header, past: nat, s: EngineState, i: Input)
    requires InChain(start, past, s) && (i.Deliver? && i.m.LedgerClosed? ==> IndexOf(i.m) != 0)
    ensures InChain(start, past, OnInput(s, i))
    ensures s.needResync ==> OnInput(s, i).needResync
  {
    hide OnLedgerClosed, Chained;
    if i.Deliver? && i.m.LedgerClosed? {
      CloseInChain(start, past, s, i.m);
    } else if i.TickNow? && s.dirty {
      var v := Published(s.header, s.open, s.objects);
      assert OnTick(s).views[past..] == s.views[past..] + [v];
      OneMoreView(s.views[past..], v);
    }
  }

  /** Unless a resync is requested, the closed ledgers published from a snapshot
      on are numbered without a gap and each names its predecessor's hash,
      whatever was published before, whatever is sent and whenever the apply
      thread ticks. */
  lemma {:induction false} ChainedUnlessResync(s: EngineState, inputs: seq<Input>)
    requires s.header.index == s.currentSeq != 0 && (s.dirty ==> s.open) && Indexed(inputs)
    ensures var r := OnInputs(s, inputs);
            && InChain(s.header, |s.views|, r)
            && (!r.needResync ==> !s.needResync && Chained([s.header] + ClosedHeaders(r.views[|s.views|..])))
  {
    hide OnInput;
    if inputs == [] {
    } else {
      var before := inputs[..|inputs| - 1];
      assert forall i :: 0 <= i < |before| ==> before[i] == inputs[i];
      ChainedUnlessResync(s, before);
      InputInChain(s.header, |s.views|, OnInputs(s, before), inputs[|inputs| - 1]);
    }
  }

  lemma ChainGrows(hs: seq<Header>, h: Header)
    requires |hs| > 0 && Chained(hs) && Linked(hs[|hs| - 1], h)
    ensures Chained(hs + [h])
  {
  }

  // ---- What the newest view shows ----

  /** A log that applied nothing leaves the objects as they were. */
  lemma {:induction false} NothingApplied(objects: map<Key, Item>, log: seq<MetaNode>)
    requires !AnyApplied(objects, log)
    ensures ObjectsAfter(objects, log) == objects
  {
    hide Outcome;
    if log != [] {
      var before, n := log[..|log| - 1], log[|log| - 1];
      assert forall i :: 0 <= i < |before| ==> before[..i] == log[..i] && before[i] == log[i];
      NothingApplied(objects, before);
      assert Outcome(ItemAt(ObjectsAfter(objects, log[..|log| - 1]), log[|log| - 1].key), log[|log| - 1]) == NoChange;
      NoChangeKeeps(objects, n);
    }
  }

  lemma NoChangeKeeps(objects: map<Key, Item>, n: MetaNode)
    requires Outcome(ItemAt(objects, n.key), n) == NoChange
    ensures ApplyNode(objects, n) == objects
  {
  }

  /** What the builder holds, its newest view shows, unless the builder is marked
      as changed since. */
  predicate Shown(s: EngineState) {
    && s.views != []
    && s.views[|s.views| - 1].header == s.header
    && (!s.dirty ==> s.views[|s.views| - 1].objects == s.objects)
  }

  lemma InputKeepsShown(s: EngineState, i: Input)
    requires Shown(s)
    ensures Shown(OnInput(s, i))
    ensures i.TickNow? ==> !OnInput(s, i).dirty && OnInput(s, i).objects == s.objects
    ensures i.TickNow? && !s.dirty ==> OnInput(s, i) == s
    ensures i.TickNow? && s.dirty ==> OnInput(s, i).views == s.views + [Published(s.header, s.open, s.objects)]
  {
    hide ObjectsAfter, AnyApplied, ClosedHeader, ParentMismatch, ClosesWithGap, ClosesStale;
    if i.Deliver? && i.m.Transaction? && i.m.nodes.Some? && !AnyApplied(s.objects, i.m.nodes.value) {
      NothingApplied(s.objects, i.m.nodes.value);
    }
  }

  lemma {:induction false} AlwaysShown(s: EngineState, inputs: seq<Input>)
    requires Shown(s)
    ensures Shown(OnInputs(s, inputs))
  {
    hide OnInput, Shown;
    if inputs != [] {
      AlwaysShown(s, inputs[..|inputs| - 1]);
      InputKeepsShown(OnInputs(s, inputs[..|inputs| - 1]), inputs[|inputs| - 1]);
    }
  }

  /** Whatever is delivered, after a tick the newest view holds the builder's objects
      under its header, closes and transactions between closes included; and a tick
      publishes nothing when the newest view does already and nothing was applied. */
  lemma TicksShowEverything(s: EngineState, inputs: seq<Input>)
    requires Shown(s)
    ensures var before, r := OnInputs(s, inputs), OnInputs(s, inputs + [TickNow]);
            && r.views != [] && r.objects == before.objects && r.header == before.header
            && r.views[|r.views| - 1].objects == r.objects && r.views[|r.views| - 1].header == r.header
            && |before.views| <= |r.views| <= |before.views| + 1
            && (!before.dirty ==> r.views == before.views)
  {
    hide ObjectsAfter, AnyApplied;
    AlwaysShown(s, inputs);
    assert (inputs + [TickNow])[..|inputs|] == inputs;
    InputKeepsShown(OnInputs(s, inputs), TickNow);
  }

  /** A transaction is taken in exactly if the engine is ready, the transaction is
      validated and it is of the current ledger, a later one or none in particular;
      then the ledger is open, its nodes are applied, and the builder is marked as
      changed if one of them was. Whatever is not taken in changes nothing. */
  lemma TransactionsTakenIn(s: EngineState, txIndex: nat, validated: bool, log: seq<MetaNode>)
    ensures var r := OnMessage(s, Transaction(txIndex, validated, Some(log)));
            if s.ready && validated && (txIndex == 0 || txIndex >= s.currentSeq) then
              && r.objects == ObjectsAfter(s.objects, log) && r.open
              && (s.dirty ==> r.dirty) && (!r.dirty ==> r.objects == s.objects)
              && (r.dirty && !s.dirty ==>
                    exists i ::
                      0 <= i < |log|
                      && Outcome(ItemAt(ObjectsAfter(s.objects, log[..i]), log[i].key), log[i]) != NoChange)
              && r.header == s.header && r.currentSeq == s.currentSeq && r.needResync == s.needResync
              && r.views == s.views
            else r == s
  {
    hide ObjectsAfter, Outcome;
    if !AnyApplied(s.objects, log) {
      NothingApplied(s.objects, log);
    }
  }

  /** A close that leaves something out takes it from the header before: its index,
      its hash, and as parent hash that header's hash, or its parent hash if it has
      no hash. */
  lemma ClosesFillIn(s: EngineState, index: Option<nat>, hash: Option<nat>, parentHash: Option<nat>)
    requires s.ready && (index.None? || index.value == 0 || index.value > s.currentSeq)
    ensures var h := OnMessage(s, LedgerClosed(index, hash, parentHash)).header;
            && (index == Some(h.index) || (index.None? && h.index == s.header.index))
            && (hash == Some(h.hash) || (hash.None? && h.hash == s.header.hash))
            && (parentHash == Some(h.parentHash)
                || (parentHash.None? && s.header.hash != 0 && h.parentHash == s.header.hash)
                || (parentHash.None? && s.header.hash == 0 && h.parentHash == s.header.parentHash))
  {
  }

  // ---- Catching up ----

  /** A ledger of the node: its hash and the nodes of each of its transactions. */
  datatype Ledger = Ledger(hash: nat, txs: seq<seq<MetaNode>>)

  function Flatten(txs: seq<seq<MetaNode>>): seq<MetaNode> {
    if txs == [] then [] else Flatten(txs[..|txs| - 1]) + txs[|txs| - 1]
  }

  /** Everything in the ledgers before j, in order. */
  function LogBefore(ledgers: seq<Ledger>, j: nat): seq<MetaNode>
    requires j <= |ledgers|
  {
    if j == 0 then [] else LogBefore(ledgers, j - 1) + Flatten(ledgers[j - 1].txs)
  }

  /** ... and the first t transactions of ledger j. */
  function LogUpTo(ledgers: seq<Ledger>, j: nat, t: nat): seq<MetaNode>
    requires j < |ledgers| && t <= |ledgers[j].txs|
  {
    LogBefore(ledgers, j) + Flatten(ledgers[j].txs[..t])
  }

  /** Where a delivery stands: ledger j of the node has had its close and its
      first `seen` transactions delivered; `from..at` of them are being repeated. */
  datatype Position = Position(j: nat, seen: nat, from: nat, at: nat)

  predicate ValidPosition(ledgers: seq<Ledger>, p: Position) {
    p.j < |ledgers| && p.from <= p.at <= p.seen <= |ledgers[p.j].txs|
  }

  /** What can come next: the next close, the next (or next repeated)
      transaction, a redelivery of the last n transactions, a stale message, or
      a tick of the apply thread. */
  datatype Event = NextClose(withParent: bool) | NextTx | Redeliver(n: nat) | Stale(m: Message) | Tick

  predicate IsStale(m: Message, seq0: nat) {
    match m
    case LedgerClosed(index, _, _) => index.Some? && 0 < index.value <= seq0
    case Transaction(txIndex, validated, _) => 0 < txIndex < seq0 || !validated
  }

  predicate Enabled(ledgers: seq<Ledger>, first: nat, p: Position, e: Event)
    requires ValidPosition(ledgers, p)
  {
    match e
    case NextClose(_) => p.at == p.seen == |ledgers[p.j].txs| && p.j + 1 < |ledgers|
    case NextTx => p.at < |ledgers[p.j].txs|
    case Redeliver(n) => p.at == p.seen && n <= p.seen
    case Stale(m) => IsStale(m, first + p.j)
    case Tick => true
  }

  function Advance(ledgers: seq<Ledger>, first: nat, p: Position, e: Event): (q: Position)
    requires ValidPosition(ledgers, p) && Enabled(ledgers, first, p, e)
    ensures ValidPosition(ledgers, q)
  {
    match e
    case NextClose(_) => Position(p.j + 1, 0, 0, 0)
    case NextTx => if p.at < p.seen then p.(at := p.at + 1) else Position(p.j, p.seen + 1, p.seen + 1, p.seen + 1)
    case Redeliver(n) => p.(from := p.seen - n, at := p.seen - n)
    case Stale(_) => p
    case Tick => p
  }

  function OnEvent(ledgers: seq<Ledger>, first: nat, s: EngineState, p: Position, e: Event): EngineState
    requires ValidPosition(ledgers, p) && Enabled(ledgers, first, p, e)
  {
    match e
    case NextClose(withParent) =>
      OnMessage(s, LedgerClosed(Some(first + p.j + 1), Some(ledgers[p.j + 1].hash),
                                if withParent then Some(ledgers[p.j].hash) else None))
    case NextTx => OnMessage(s, Transaction(first + p.j, true, Some(ledgers[p.j].txs[p.at])))
    case Redeliver(_) => s
    case Stale(m) => OnMessage(s, m)
    case Tick => OnTick(s)
  }

  /** Whatever run of a ledger's transactions is repeated, it can be replayed. */
  ghost predicate ReplayableHistory(ledgers: seq<Ledger>, base: map<Key, Item>) {
    forall j, from, at :: 0 <= j < |ledgers| && 0 <= from <= at <= |ledgers[j].txs| ==>
      Replayable(ObjectsAfter(base, LogUpTo(ledgers, j, from)), Flatten(ledgers[j].txs[from..at]))
  }

  /** The closed view of ledger j: its own header, chained to j - 1, over the
      objects of every ledger before it. */
  function ExpectedView(ledgers: seq<Ledger>, first: nat, base: map<Key, Item>, j: nat): Published
    requires 0 < j < |ledgers|
  {
    Published(Header(first + j, ledgers[j].hash, ledgers[j - 1].hash), false,
              ObjectsAfter(base, LogBefore(ledgers, j)))
  }

  function ExpectedViews(ledgers: seq<Ledger>, first: nat, base: map<Key, Item>, j: nat): seq<Published>
    requires j < |ledgers|
  {
    if j == 0 then [] else ExpectedViews(ledgers, first, base, j - 1) + [ExpectedView(ledgers, first, base, j)]
  }

  /** The closed views published for ledgers after the snapshot. */
  function LaterClosed(views: seq<Published>, first: nat): seq<Published> {
    if views == [] then []
    else
      var rest := LaterClosed(views[..|views| - 1], first);
      var v := views[|views| - 1];
      if !v.open && first < v.header.index then rest + [v] else rest
  }

  /** The objects while `from..at` is being repeated. */
  function ObjectsAt(ledgers: seq<Ledger>, base: map<Key, Item>, p: Position): map<Key, Item>
    requires ValidPosition(ledgers, p)
  {
    ObjectsAfter(ObjectsAfter(base, LogUpTo(ledgers, p.j, p.seen)), Flatten(ledgers[p.j].txs[p.from..p.at]))
  }

  /** Where the engine is at this point of a delivery; the views before `past` are
      older than the snapshot. */
  ghost predicate InStep(ledgers: seq<Ledger>, first: nat, base: map<Key, Item>, past: nat, s: EngineState, p: Position)
  {
    && ValidPosition(ledgers, p)
    && s.ready && !s.needResync
    && s.currentSeq == s.header.index == first + p.j
    && s.header.hash == ledgers[p.j].hash
    && (p.j > 0 ==> s.header.parentHash == ledgers[p.j - 1].hash)
    && (s.dirty && !s.open ==> p.j == 0)
    && s.objects == ObjectsAt(ledgers, base, p)
    && (p.at == p.seen ==> s.objects == ObjectsAfter(base, LogUpTo(ledgers, p.j, p.seen)))
    && past <= |s.views| && LaterClosed(s.views[past..], first) == ExpectedViews(ledgers, first, base, p.j)
  }

  /** The start: a snapshot of the first ledger, with all its transactions in it,
      whatever was published before and with it. */
  predicate AtSnapshot(ledgers: seq<Ledger>, first: nat, base: map<Key, Item>, s: EngineState) {
    && |ledgers| > 0 && first > 0
    && s.ready && !s.needResync && !s.open
    && s.currentSeq == s.header.index == first && s.header.hash == ledgers[0].hash
    && s.objects == ObjectsAfter(base, LogUpTo(ledgers, 0, |ledgers[0].txs|))
  }

  function StartPosition(ledgers: seq<Ledger>): Position
    requires |ledgers| > 0
  {
    var n := |ledgers[0].txs|;
    Position(0, n, n, n)
  }

  lemma NothingRepeated(ledgers: seq<Ledger>, base: map<Key, Item>, p: Position)
    requires ValidPosition(ledgers, p) && p.from == p.at
    ensures ObjectsAt(ledgers, base, p) == ObjectsAfter(base, LogUpTo(ledgers, p.j, p.seen))
  {
    assert ledgers[p.j].txs[p.from..p.at] == [];
  }

  lemma {:induction false} FlattenConcat(a: seq<seq<MetaNode>>, b: seq<seq<MetaNode>>)
    ensures Flatten(a + b) == Flatten(a) + Flatten(b)
  {
    if b == [] {
      assert a + b == a;
    } else {
      FlattenConcat(a, b[..|b| - 1]);
      assert (a + b)[..|a + b| - 1] == a + b[..|b| - 1];
    }
  }

  lemma FlattenOneMore(txs: seq<seq<MetaNode>>, from: nat, at: nat)
    requires from <= at < |txs|
    ensures Flatten(txs[from..at + 1]) == Flatten(txs[from..at]) + txs[at]
  {
    assert txs[from..at + 1][..at - from] == txs[from..at];
  }

  /** A repeat that has caught up has changed nothing. */
  lemma RepeatDone(ledgers: seq<Ledger>, base: map<Key, Item>, p: Position)
    requires ReplayableHistory(ledgers, base) && ValidPosition(ledgers, p) && p.at == p.seen
    ensures ObjectsAt(ledgers, base, p) == ObjectsAfter(base, LogUpTo(ledgers, p.j, p.seen))
  {
    hide Replayable;
    RepeatedLog(ledgers, p.j, p.from, p.at);
    ReplayOfSuffix(base, LogUpTo(ledgers, p.j, p.from), Flatten(ledgers[p.j].txs[p.from..p.at]));
  }

  lemma RepeatedLog(ledgers: seq<Ledger>, j: nat, from: nat, at: nat)
    requires j < |ledgers| && from <= at <= |ledgers[j].txs|
    ensures LogUpTo(ledgers, j, at) == LogUpTo(ledgers, j, from) + Flatten(ledgers[j].txs[from..at])
  {
    var txs := ledgers[j].txs;
    assert txs[..at] == txs[..from] + txs[from..at];
    FlattenConcat(txs[..from], txs[from..at]);
  }

  lemma NewTxObjects(ledgers: seq<Ledger>, base: map<Key, Item>, j: nat, t: nat)
    requires j < |ledgers| && t < |ledgers[j].txs|
    ensures ObjectsAfter(base, LogUpTo(ledgers, j, t + 1)) ==
            ObjectsAfter(ObjectsAfter(base, LogUpTo(ledgers, j, t)), ledgers[j].txs[t])
  {
    FlattenOneMore(ledgers[j].txs, 0, t);
    assert LogUpTo(ledgers, j, t + 1) == LogUpTo(ledgers, j, t) + ledgers[j].txs[t];
    ObjectsAfterConcat(base, LogUpTo(ledgers, j, t), ledgers[j].txs[t]);
  }

  lemma RepeatedTxObjects(ledgers: seq<Ledger>, base: map<Key, Item>, p: Position)
    requires ValidPosition(ledgers, p) && p.at < p.seen
    ensures ObjectsAt(ledgers, base, p.(at := p.at + 1)) ==
            ObjectsAfter(ObjectsAt(ledgers, base, p), ledgers[p.j].txs[p.at])
  {
    var txs := ledgers[p.j].txs;
    FlattenOneMore(txs, p.from, p.at);
    ObjectsAfterConcat(ObjectsAfter(base, LogUpTo(ledgers, p.j, p.seen)), Flatten(txs[p.from..p.at]), txs[p.at]);
  }

  lemma OneMoreLater(views: seq<Published>, past: nat, v: Published, first: nat)
    requires past <= |views|
    ensures LaterClosed((views + [v])[past..], first) ==
            if !v.open && first < v.header.index then LaterClosed(views[past..], first) + [v]
            else LaterClosed(views[past..], first)
  {
    assert (views + [v])[past..] == views[past..] + [v];
    assert (views[past..] + [v])[..|views| - past] == views[past..];
  }

  lemma TxInStep(ledgers: seq<Ledger>, first: nat, base: map<Key, Item>, past: nat, s: EngineState, p: Position)
    requires first > 0 && ReplayableHistory(ledgers, base) && InStep(ledgers, first, base, past, s, p)
    requires Enabled(ledgers, first, p, NextTx)
    ensures InStep(ledgers, first, base, past, OnEvent(ledgers, first, s, p, NextTx),
                   Advance(ledgers, first, p, NextTx))
  {
    hide ObjectsAfter, ObjectsAt, LogUpTo, AnyApplied, LaterClosed, ExpectedViews;
    var q := Advance(ledgers, first, p, NextTx);
    if p.at < p.seen {
      RepeatedTxObjects(ledgers, base, p);
      if q.at == q.seen {
        RepeatDone(ledgers, base, q);
      }
    } else {
      NewTxObjects(ledgers, base, p.j, p.seen);
      NothingRepeated(ledgers, base, q);
    }
  }

  lemma CloseLog(ledgers: seq<Ledger>, j: nat)
    requires j + 1 < |ledgers|
    ensures LogUpTo(ledgers, j + 1, 0) == LogBefore(ledgers, j + 1) == LogUpTo(ledgers, j, |ledgers[j].txs|)
  {
    var txs := ledgers[j].txs;
    assert txs[..|txs|] == txs && ledgers[j + 1].txs[..0] == [];
  }

  lemma CloseInStep(ledgers: seq<Ledger>, first: nat, base: map<Key, Item>, past: nat, s: EngineState, p: Position,
                    withParent: bool)
    requires first > 0 && InStep(ledgers, first, base, past, s, p)
    requires forall j :: 0 <= j < |ledgers| ==> ledgers[j].hash != 0
    requires Enabled(ledgers, first, p, NextClose(withParent))
    ensures InStep(ledgers, first, base, past, OnEvent(ledgers, first, s, p, NextClose(withParent)),
                   Advance(ledgers, first, p, NextClose(withParent)))
  {
    hide ObjectsAfter, ObjectsAt, LogUpTo, LogBefore, Flatten, LaterClosed;
    var q := Position(p.j + 1, 0, 0, 0);
    var r := OnEvent(ledgers, first, s, p, NextClose(withParent));
    CloseLog(ledgers, p.j);
    NothingRepeated(ledgers, base, q);
    OneMoreLater(s.views, past, Published(r.header, r.open, r.objects), first);
    assert Published(r.header, r.open, r.objects) == ExpectedView(ledgers, first, base, q.j);
  }

  lemma TickInStep(ledgers: seq<Ledger>, first: nat, base: map<Key, Item>, past: nat, s: EngineState, p: Position)
    requires InStep(ledgers, first, base, past, s, p)
    ensures InStep(ledgers, first, base, past, OnTick(s), p)
  {
    OneMoreLater(s.views, past, Published(s.header, s.open, s.objects), first);
  }

  lemma EventInStep(ledgers: seq<Ledger>, first: nat, base: map<Key, Item>, past: nat, s: EngineState, p: Position,
                    e: Event)
    requires first > 0 && ReplayableHistory(ledgers, base) && InStep(ledgers, first, base, past, s, p)
    requires forall j :: 0 <= j < |ledgers| ==> ledgers[j].hash != 0
    requires Enabled(ledgers, first, p, e)
    ensures InStep(ledgers, first, base, past, OnEvent(ledgers, first, s, p, e), Advance(ledgers, first, p, e))
  {
    match e
    case NextClose(withParent) => CloseInStep(ledgers, first, base, past, s, p, withParent);
    case NextTx => TxInStep(ledgers, first, base, past, s, p);
    case Redeliver(n) => NothingRepeated(ledgers, base, Advance(ledgers, first, p, e));
    case Stale(m) =>
    case Tick => TickInStep(ledgers, first, base, past, s, p);
  }

  // ---- Runs ----

  ghost predicate Deliverable(ledgers: seq<Ledger>, first: nat, p: Position, es: seq<Event>)
    requires ValidPosition(ledgers, p)
    decreases |es|
  {
    es == [] || (Enabled(ledgers, first, p, es[0])
                 && Deliverable(ledgers, first, Advance(ledgers, first, p, es[0]), es[1..]))
  }

  /** The ledger and state a delivery ends in. */
  ghost function Delivered(ledgers: seq<Ledger>, first: nat, s: EngineState, p: Position, es: seq<Event>)
    : (EngineState, Position)
    requires ValidPosition(ledgers, p) && Deliverable(ledgers, first, p, es)
    decreases |es|
  {
    if es == [] then (s, p)
    else Delivered(ledgers, first, OnEvent(ledgers, first, s, p, es[0]), Advance(ledgers, first, p, es[0]), es[1..])
  }

  lemma {:induction false} DeliveryInStep(ledgers: seq<Ledger>, first: nat, base: map<Key, Item>, past: nat,
                                          s: EngineState, p: Position, es: seq<Event>)
    requires first > 0 && ReplayableHistory(ledgers, base) && InStep(ledgers, first, base, past, s, p)
    requires forall j :: 0 <= j < |ledgers| ==> ledgers[j].hash != 0
    requires Deliverable(ledgers, first, p, es)
    ensures var (t, q) := Delivered(ledgers, first, s, p, es); InStep(ledgers, first, base, past, t, q)
    decreases |es|
  {
    if es == [] {
    } else {
      EventInStep(ledgers, first, base, past, s, p, es[0]);
      DeliveryInStep(ledgers, first, base, past, OnEvent(ledgers, first, s, p, es[0]),
                     Advance(ledgers, first, p, es[0]), es[1..]);
    }
  }

  /** Catching up is exactly-once apply: after any delivery of the queued
      stream, with whatever stale or repeated messages and ticks in it, the
      closed views after the snapshot are the node's own ledgers, chained, each
      over the objects of all ledgers before it applied once; and between
      repeats the objects are the node's log applied once. */
  lemma CatchUpAppliesOnce(ledgers: seq<Ledger>, first: nat, base: map<Key, Item>, s: EngineState, es: seq<Event>)
    requires AtSnapshot(ledgers, first, base, s) && ReplayableHistory(ledgers, base)
    requires forall j :: 0 <= j < |ledgers| ==> ledgers[j].hash != 0
    requires Deliverable(ledgers, first, StartPosition(ledgers), es)
    ensures var (t, q) := Delivered(ledgers, first, s, StartPosition(ledgers), es);
            && ValidPosition(ledgers, q)
            && !t.needResync && t.currentSeq == first + q.j
            && |s.views| <= |t.views|
            && LaterClosed(t.views[|s.views|..], first) == ExpectedViews(ledgers, first, base, q.j)
            && (q.at == q.seen ==> t.objects == ObjectsAfter(base, LogUpTo(ledgers, q.j, q.seen)))
  {
    NothingRepeated(ledgers, base, StartPosition(ledgers));
    DeliveryInStep(ledgers, first, base, |s.views|, s, StartPosition(ledgers), es);
  }
}
