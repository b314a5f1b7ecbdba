// The apply side of Engine: affected nodes, closes, transactions and ticks,
// carried out on the builder and the order books in place.

module Engine {
  import opened Prelude
  import opened LedgerObjects
  import opened LedgerStore
  import opened BookTables
  import opened BookProofs
  import opened OrderBooks
  import opened MetaNodes
  import opened StreamApply

  /** The builder is sound and shares nothing with the books. */
  ghost predicate Apart(builder: LedgerBuilder<Item>, books: LocalOrderBooks)
    reads builder, builder.base, builder.overlay, builder.shared
  {
    builder.Valid() && books !in builder.shared && books !in builder.Repr()
  }

  method ApplyMetaNode(builder: LedgerBuilder<Item>, books: LocalOrderBooks, n: MetaNode) returns (kind: MetaApply)
    requires Apart(builder, books)
    modifies builder`overlay, builder`model, builder.base`items, builder.overlay, books
    ensures Apart(builder, books) && fresh(builder.Repr() - old(builder.Repr()))
    ensures builder.model == ApplyNode(old(builder.model), n)
    ensures books.Contents() == NextTables(old(books.Contents()), ItemAt(old(builder.model), n.key), n)
    ensures kind == Outcome(ItemAt(old(builder.model), n.key), n)
  {
    hide AddFromSle, RemoveFromSle, OfferComplete, FinalEntry;
    var stored := builder.Clone(n.key);
    if n.change.DeletedNode? {
      RemoveDeleted(books, stored, n);
      builder.Erase(n.key);
      return Deleted;
    }
    if n.fields.None? {
      return NoChange;
    }
    var merged := MergedEntry(stored, n);
    if merged.None? {
      return NoChange;
    }
    StoreMerged(builder, books, n.key, merged.value);
    if !OfferComplete(merged.value) {
      return Incomplete;
    }
    return if n.change.CreatedNode? then Created else Modified;
  }

  /** Takes the deleted object, as stored or as the node describes it, out of the books. */
  method RemoveDeleted(books: LocalOrderBooks, stored: Option<Item>, n: MetaNode)
    requires n.change.DeletedNode?
    modifies books
    ensures books.Contents() == NextTables(old(books.Contents()), stored, n)
  {
    hide RemoveFromSle, FinalEntry;
    var current := Cloned(stored);
    if current.Some? {
      books.RemoveSle(n.key, current.value);
    } else if FinalEntry(n).Some? {
      books.RemoveSle(n.key, FinalEntry(n).value);
    }
  }

  /** An incomplete object leaves the books, and an incomplete offer the ledger too. */
  method StoreMerged(builder: LedgerBuilder<Item>, books: LocalOrderBooks, key: Key, sle: Entry)
    requires Apart(builder, books)
    modifies builder`overlay, builder`model, builder.base`items, builder.overlay, books
    ensures Apart(builder, books) && fresh(builder.Repr() - old(builder.Repr()))
    ensures builder.model == if !OfferComplete(sle) && sle.kind.code.OfferType? then old(builder.model) - {key}
                             else old(builder.model)[key := Decoded(sle)]
    ensures books.Contents() == if OfferComplete(sle) then AddFromSle(old(books.Contents()), key, sle)
                                else RemoveFromSle(old(books.Contents()), key, sle)
  {
    hide AddFromSle, RemoveFromSle, OfferComplete;
    if OfferComplete(sle) {
      books.AddSle(key, sle);
    } else {
      books.RemoveSle(key, sle);
    }
    if !OfferComplete(sle) && sle.kind.code.OfferType? {
      builder.Erase(key);
    } else {
      builder.Put(key, Decoded(sle));
    }
  }

  /** A stream node after JSON parsing: usable, unparsable, or of a type this
      library does not know (a deletion is still applied by index). */
  datatype StreamNode = Parsed(node: MetaNode) | ParseFailed | UnknownType(deleted: bool, key: Option<Key>)

  function Effect(s: StreamNode): Option<MetaNode> {
    match s
    case Parsed(n) => Some(n)
    case ParseFailed => None
    case UnknownType(deleted, key) =>
      if deleted && key.Some? then Some(MetaNode(DeletedNode, key.value, None, None)) else None
  }

  function Effects(nodes: seq<StreamNode>): seq<MetaNode> {
    if nodes == [] then []
    else
      var rest := Effects(nodes[..|nodes| - 1]);
      var last := Effect(nodes[|nodes| - 1]);
      if last.Some? then rest + [last.value] else rest
  }

  datatype StreamMetaStats = StreamMetaStats(
    created: nat, modified: nat, deleted: nat, incomplete: nat, none: nat, parseFail: nat, skippedUnknown: nat)
  {
    function Applied(): nat {
      created + modified + deleted + incomplete
    }

    function Note(kind: MetaApply): StreamMetaStats {
      match kind
      case Created => this.(created := created + 1)
      case Modified => this.(modified := modified + 1)
      case Deleted => this.(deleted := deleted + 1)
      case Incomplete => this.(incomplete := incomplete + 1)
      case NoChange => this.(none := none + 1)
    }
  }

  /** What acts: a usable node as it is, and a deletion of a type the library does
      not know as the deletion of its index. */
  predicate Acts(s: StreamNode, n: MetaNode) {
    || s == Parsed(n)
    || (s == UnknownType(true, Some(n.key)) && n == MetaNode(DeletedNode, n.key, None, None))
  }

  /** A deletion without an index, or any other node of an unknown type. */
  predicate Skips(s: StreamNode) {
    s.UnknownType? && (s.key.None? || !s.deleted)
  }

  /** The log of a list of nodes: entry i is what node at[i] does, in order, and no
      node that acts is missing. */
  ghost predicate Picks(nodes: seq<StreamNode>, log: seq<MetaNode>, at: seq<nat>) {
    && |at| == |log|
    && (forall i, j :: 0 <= i < j < |at| ==> at[i] < at[j])
    && (forall i :: 0 <= i < |at| ==> at[i] < |nodes| && Acts(nodes[at[i]], log[i]))
    && (forall k :: 0 <= k < |nodes| && !nodes[k].ParseFailed? && !Skips(nodes[k]) ==> k in at)
  }

  ghost predicate LogOf(nodes: seq<StreamNode>, log: seq<MetaNode>) {
    exists at :: Picks(nodes, log, at)
  }

  lemma EffectActs(s: StreamNode)
    ensures Effect(s).None? <==> s.ParseFailed? || Skips(s)
    ensures forall n :: Acts(s, n) <==> Effect(s) == Some(n)
  {
  }

  lemma {:induction false} EffectsPicked(nodes: seq<StreamNode>) returns (at: seq<nat>)
    ensures Picks(nodes, Effects(nodes), at)
  {
    hide Effect, Acts, Skips;
    at := [];
    if nodes != [] {
      var init, last := nodes[..|nodes| - 1], nodes[|nodes| - 1];
      at := EffectsPicked(init);
      EffectActs(last);
      var before := at;
      if Effect(last).Some? {
        at := before + [|nodes| - 1];
        assert at[|before|] == |nodes| - 1;
      }
      forall k | 0 <= k < |nodes| && !nodes[k].ParseFailed? && !Skips(nodes[k])
        ensures k in at
      {
        if k < |init| {
          assert init[k] == nodes[k] && k in before;
        }
      }
    }
  }

  /** Every list of nodes has exactly one log. */
  lemma EffectsAreLog(nodes: seq<StreamNode>)
    ensures LogOf(nodes, Effects(nodes))
    ensures forall log :: LogOf(nodes, log) ==> log == Effects(nodes)
  {
    hide Picks, Effects;
    var at := EffectsPicked(nodes);
    forall log | LogOf(nodes, log)
      ensures log == Effects(nodes)
    {
      var other :| Picks(nodes, log, other);
      LogIsUnique(nodes, log, other);
    }
  }

  lemma {:induction false} AtLeastIndex(at: seq<nat>, i: nat)
    requires i < |at| && forall i, j :: 0 <= i < j < |at| ==> at[i] < at[j]
    ensures i <= at[i]
  {
    if i > 0 {
      AtLeastIndex(at, i - 1);
    }
  }

  lemma NoMoreThanNodes(nodes: seq<StreamNode>, log: seq<MetaNode>, at: seq<nat>)
    requires Picks(nodes, log, at)
    ensures |log| <= |nodes|
  {
    if at != [] {
      AtLeastIndex(at, |at| - 1);
    }
  }

  lemma {:induction false} LogIsUnique(nodes: seq<StreamNode>, log: seq<MetaNode>, at: seq<nat>)
    requires Picks(nodes, log, at)
    ensures log == Effects(nodes)
  {
    hide Effect, Acts, Skips;
    if nodes == [] {
      NoMoreThanNodes(nodes, log, at);
    } else {
      var init, last := nodes[..|nodes| - 1], nodes[|nodes| - 1];
      EffectActs(last);
      if at != [] && at[|at| - 1] == |nodes| - 1 {
        var n := |at| - 1;
        assert Picks(init, log[..n], at[..n]);
        LogIsUnique(init, log[..n], at[..n]);
        assert log == log[..n] + [log[n]];
      } else {
        assert forall i :: 0 <= i < |at| ==> at[i] < |init|;
        assert |nodes| - 1 !in at;
        assert Picks(init, log, at);
        LogIsUnique(init, log, at);
      }
    }
  }

  /** When every node is usable the log is the nodes. */
  lemma {:induction false} AllParsed(nodes: seq<StreamNode>, log: seq<MetaNode>)
    requires |log| == |nodes| && forall k :: 0 <= k < |nodes| ==> nodes[k] == Parsed(log[k])
    ensures LogOf(nodes, log) && Effects(nodes) == log
  {
    hide LogOf;
    EffectsAreLog(nodes);
    if nodes != [] {
      var n := |nodes| - 1;
      AllParsed(nodes[..n], log[..n]);
      assert log == log[..n] + [log[n]];
    }
  }

  lemma EffectsStart(nodes: seq<StreamNode>)
    ensures Effects(nodes[..0]) == []
  {
  }

  lemma EffectsNext(nodes: seq<StreamNode>, i: nat)
    requires i < |nodes|
    ensures Effects(nodes[..i + 1]) ==
            if Effect(nodes[i]).Some? then Effects(nodes[..i]) + [Effect(nodes[i]).value] else Effects(nodes[..i])
  {
    assert nodes[..i + 1][..i] == nodes[..i];
  }

  lemma LogNext(t: Tables, objects: map<Key, Item>, log: seq<MetaNode>, n: MetaNode)
    ensures ObjectsAfter(objects, log + [n]) == ApplyNode(ObjectsAfter(objects, log), n)
    ensures TablesAfter(t, objects, log + [n]) ==
            NextTables(TablesAfter(t, objects, log), ItemAt(ObjectsAfter(objects, log), n.key), n)
  {
    assert (log + [n])[..|log|] == log;
  }

  method ApplyStreamNode(builder: LedgerBuilder<Item>, books: LocalOrderBooks, node: StreamNode, stats: StreamMetaStats)
    returns (r: StreamMetaStats)
    requires Apart(builder, books)
    modifies builder`overlay, builder`model, builder.base`items, builder.overlay, books
    ensures Apart(builder, books) && fresh(builder.Repr() - old(builder.Repr()))
    ensures node.ParseFailed? || Skips(node) ==>
              builder.model == old(builder.model) && books.Contents() == old(books.Contents())
    ensures node.ParseFailed? ==> r == stats.(parseFail := stats.parseFail + 1)
    ensures Skips(node) ==> r == stats.(skippedUnknown := stats.skippedUnknown + 1)
    ensures forall n :: Acts(node, n) ==>
              var c := ItemAt(old(builder.model), n.key);
              && builder.model == ApplyNode(old(builder.model), n)
              && books.Contents() == NextTables(old(books.Contents()), c, n)
              && r == match Outcome(c, n)
                      case Created => stats.(created := stats.created + 1)
                      case Modified => stats.(modified := stats.modified + 1)
                      case Deleted => stats.(deleted := stats.deleted + 1)
                      case Incomplete => stats.(incomplete := stats.incomplete + 1)
                      case NoChange => stats.(none := stats.none + 1)
  {
    hide NextTables, ApplyNode, Apart;
    match node
    case Parsed(n) =>
      var kind := ApplyMetaNode(builder, books, n);
      r := stats.Note(kind);
    case ParseFailed =>
      r := stats.(parseFail := stats.parseFail + 1);
    case UnknownType(deleted, key) =>
      if deleted && key.Some? {
        var kind := ApplyMetaNode(builder, books, MetaNode(DeletedNode, key.value, None, None));
        r := stats.Note(kind);
      } else {
        r := stats.(skippedUnknown := stats.skippedUnknown + 1);
      }
  }

  /** The entries of a log with a given outcome. */
  ghost function Outcomes(objects: map<Key, Item>, log: seq<MetaNode>, kind: MetaApply): set<nat> {
    set i: nat | i < |log| && Outcome(ItemAt(ObjectsAfter(objects, log[..i]), log[i].key), log[i]) == kind
  }

  ghost function Unparsable(nodes: seq<StreamNode>): set<nat> {
    set k: nat | k < |nodes| && nodes[k].ParseFailed?
  }

  ghost function SkippedNodes(nodes: seq<StreamNode>): set<nat> {
    set k: nat | k < |nodes| && Skips(nodes[k])
  }

  /** Each counter is the number of its entries, respectively nodes. */
  ghost predicate Counts(objects: map<Key, Item>, log: seq<MetaNode>, nodes: seq<StreamNode>, stats: StreamMetaStats) {
    && stats.created == |Outcomes(objects, log, Created)|
    && stats.modified == |Outcomes(objects, log, Modified)|
    && stats.deleted == |Outcomes(objects, log, Deleted)|
    && stats.incomplete == |Outcomes(objects, log, Incomplete)|
    && stats.none == |Outcomes(objects, log, NoChange)|
    && stats.parseFail == |Unparsable(nodes)| && stats.skippedUnknown == |SkippedNodes(nodes)|
  }

  lemma OneMore(before: set<nat>, after: set<nat>, x: nat, hit: bool)
    requires x !in before && forall i :: i in after <==> i in before || (hit && i == x)
    ensures |after| == |before| + if hit then 1 else 0
  {
    assert after == before + if hit then {x} else {};
  }

  lemma OutcomesNext(objects: map<Key, Item>, log: seq<MetaNode>, n: MetaNode, kind: MetaApply)
    ensures |Outcomes(objects, log + [n], kind)| == |Outcomes(objects, log, kind)| +
            if Outcome(ItemAt(ObjectsAfter(objects, log), n.key), n) == kind then 1 else 0
  {
    hide ObjectsAfter, Outcome;
    var more := log + [n];
    forall i: nat
      ensures i in Outcomes(objects, more, kind) <==>
                i in Outcomes(objects, log, kind)
                || (Outcome(ItemAt(ObjectsAfter(objects, log), n.key), n) == kind && i == |log|)
    {
      OutcomeAt(log, n, i);
    }
    OneMore(Outcomes(objects, log, kind), Outcomes(objects, more, kind), |log|,
            Outcome(ItemAt(ObjectsAfter(objects, log), n.key), n) == kind);
  }

  lemma OutcomeAt(log: seq<MetaNode>, n: MetaNode, i: nat)
    ensures i < |log| ==> (log + [n])[..i] == log[..i] && (log + [n])[i] == log[i]
    ensures (log + [n])[..|log|] == log && (log + [n])[|log|] == n
  {
  }

  lemma NodesNext(nodes: seq<StreamNode>, i: nat)
    requires i < |nodes|
    ensures |Unparsable(nodes[..i + 1])| == |Unparsable(nodes[..i])| + if nodes[i].ParseFailed? then 1 else 0
    ensures |SkippedNodes(nodes[..i + 1])| == |SkippedNodes(nodes[..i])| + if Skips(nodes[i]) then 1 else 0
  {
    hide Skips;
    OneMore(Unparsable(nodes[..i]), Unparsable(nodes[..i + 1]), i, nodes[i].ParseFailed?);
    OneMore(SkippedNodes(nodes[..i]), SkippedNodes(nodes[..i + 1]), i, Skips(nodes[i]));
  }

  /** Something was applied exactly if the log has an entry that changed something. */
  lemma CountsApplied(objects: map<Key, Item>, log: seq<MetaNode>, nodes: seq<StreamNode>, stats: StreamMetaStats)
    requires Counts(objects, log, nodes, stats)
    ensures stats.Applied() > 0 <==> AnyApplied(objects, log)
  {
    hide ObjectsAfter, Outcome;
    if AnyApplied(objects, log) {
      var i: nat :| i < |log| && Outcome(ItemAt(ObjectsAfter(objects, log[..i]), log[i].key), log[i]) != NoChange;
      assert i in Outcomes(objects, log, Outcome(ItemAt(ObjectsAfter(objects, log[..i]), log[i].key), log[i]));
    } else {
      assert Outcomes(objects, log, Created) == Outcomes(objects, log, Modified) == {};
      assert Outcomes(objects, log, Deleted) == Outcomes(objects, log, Incomplete) == {};
    }
  }

  /** Where the loop stands after the first nodes. */
  ghost predicate Reached(tables: Tables, objects: map<Key, Item>, nodes: seq<StreamNode>,
                          t: Tables, o: map<Key, Item>, stats: StreamMetaStats)
  {
    && o == ObjectsAfter(objects, Effects(nodes))
    && t == TablesAfter(tables, objects, Effects(nodes))
    && Counts(objects, Effects(nodes), nodes, stats)
  }

  lemma ReachedStart(tables: Tables, objects: map<Key, Item>)
    ensures Reached(tables, objects, [], tables, objects, StreamMetaStats(0, 0, 0, 0, 0, 0, 0))
  {
    assert forall kind :: Outcomes(objects, [], kind) == {};
    assert Unparsable([]) == SkippedNodes([]) == {};
  }

  /** Every node is counted once, under what became of it; the nodes that act, in
      order and none twice, are the log whose effect the map and the tables show. */
  method ApplyJsonAffectedNodes(builder: LedgerBuilder<Item>, books: LocalOrderBooks, nodes: seq<StreamNode>)
    returns (stats: StreamMetaStats)
    requires Apart(builder, books)
    modifies builder`overlay, builder`model, builder.base`items, builder.overlay, books
    ensures Apart(builder, books) && fresh(builder.Repr() - old(builder.Repr()))
    ensures exists log :: LogOf(nodes, log)
              && builder.model == ObjectsAfter(old(builder.model), log)
              && books.Contents() == TablesAfter(old(books.Contents()), old(builder.model), log)
              && Counts(old(builder.model), log, nodes, stats)
  {
    hide NextTables, Reached, Outcome, ApplyNode, Effects, Apart, Acts, Skips, LogOf;
    ghost var objects, tables := builder.model, books.Contents();
    ReachedStart(tables, objects);
    stats := StreamMetaStats(0, 0, 0, 0, 0, 0, 0);
    for i := 0 to |nodes|
      invariant Apart(builder, books) && fresh(builder.Repr() - old(builder.Repr()))
      invariant builder.overlay == old(builder.overlay) || fresh(builder.overlay)
      invariant Reached(tables, objects, nodes[..i], books.Contents(), builder.model, stats)
    {
      ghost var t, o, before := books.Contents(), builder.model, stats;
      stats := ApplyStreamNode(builder, books, nodes[i], stats);
      NodeReached(tables, objects, nodes, i, t, o, before, books.Contents(), builder.model, stats);
    }
    AllNodes(nodes);
    ReachedLog(tables, objects, nodes, books.Contents(), builder.model, stats);
  }

  lemma AllNodes(nodes: seq<StreamNode>)
    ensures nodes[..|nodes|] == nodes
  {
  }

  lemma ReachedLog(tables: Tables, objects: map<Key, Item>, nodes: seq<StreamNode>,
                   t: Tables, o: map<Key, Item>, stats: StreamMetaStats)
    requires Reached(tables, objects, nodes, t, o, stats)
    ensures exists log ::
              LogOf(nodes, log) && o == ObjectsAfter(objects, log) && t == TablesAfter(tables, objects, log)
              && Counts(objects, log, nodes, stats)
  {
    hide Effects, LogOf, ObjectsAfter, TablesAfter, Counts;
    EffectsAreLog(nodes);
  }

  /** One more node, applied as ApplyStreamNode promises. */
  lemma NodeReached(tables: Tables, objects: map<Key, Item>, nodes: seq<StreamNode>, i: nat,
                    t: Tables, o: map<Key, Item>, stats: StreamMetaStats,
                    t2: Tables, o2: map<Key, Item>, r: StreamMetaStats)
    requires i < |nodes| && Reached(tables, objects, nodes[..i], t, o, stats)
    requires nodes[i].ParseFailed? || Skips(nodes[i]) ==> o2 == o && t2 == t
    requires nodes[i].ParseFailed? ==> r == stats.(parseFail := stats.parseFail + 1)
    requires Skips(nodes[i]) ==> r == stats.(skippedUnknown := stats.skippedUnknown + 1)
    requires forall n :: Acts(nodes[i], n) ==>
               && o2 == ApplyNode(o, n) && t2 == NextTables(t, ItemAt(o, n.key), n)
               && r == stats.Note(Outcome(ItemAt(o, n.key), n))
    ensures Reached(tables, objects, nodes[..i + 1], t2, o2, r)
  {
    hide NextTables, Outcome, ApplyNode, ObjectsAfter, TablesAfter, Effects, Effect, Acts, Outcomes, Unparsable,
      SkippedNodes;
    EffectActs(nodes[i]);
    EffectsNext(nodes, i);
    NodesNext(nodes, i);
    if Effect(nodes[i]).Some? {
      var n := Effect(nodes[i]).value;
      var log := Effects(nodes[..i]);
      LogNext(tables, objects, log, n);
      OutcomesNext(objects, log, n, Created);
      OutcomesNext(objects, log, n, Modified);
      OutcomesNext(objects, log, n, Deleted);
      OutcomesNext(objects, log, n, Incomplete);
      OutcomesNext(objects, log, n, NoChange);
    }
  }

  /** A queued item: a close, or a transaction with its affected nodes. */
  datatype ApplyItem =
    | CloseItem(index: Option<nat>, hash: Option<nat>, parentHash: Option<nat>)
    | TxItem(txIndex: nat, validated: bool, nodes: Option<seq<StreamNode>>)

  function MessageOf(item: ApplyItem): Message {
    match item
    case CloseItem(index, hash, parentHash) => LedgerClosed(index, hash, parentHash)
    case TxItem(txIndex, validated, nodes) =>
      Transaction(txIndex, validated, if nodes.Some? then Some(Effects(nodes.value)) else None)
  }

  lemma CloseFields(item: ApplyItem)
    requires item.CloseItem?
    ensures MessageOf(item).LedgerClosed? && MessageOf(item).index == item.index
  {
  }

  function MessagesOf(items: seq<ApplyItem>): seq<Message> {
    seq(|items|, i requires 0 <= i < |items| => MessageOf(items[i]))
  }

  lemma MessagesLength(items: seq<ApplyItem>)
    ensures |MessagesOf(items)| == |items|
  {
  }

  lemma MessagesNext(items: seq<ApplyItem>, i: nat, s: EngineState)
    requires i < |items|
    ensures |MessagesOf(items)| == |items|
    ensures OnMessages(s, MessagesOf(items)[..i + 1]) ==
              OnMessage(OnMessages(s, MessagesOf(items)[..i]), MessageOf(items[i]))
  {
    hide OnMessage;
    var ms := MessagesOf(items);
    assert ms[..i + 1][..i] == ms[..i] && ms[..i + 1][i] == MessageOf(items[i]);
  }

  class Engine {
    const builder: LedgerBuilder<Item>
    const books: LocalOrderBooks
    var currentSeq: nat
    var ready: bool
    var needResync: bool
    var dirty: bool
    var published: MemoryLedger?<Item>
    /** Every view published so far. */
    ghost var views: seq<Published>

    ghost predicate Valid()
      reads this, builder, builder.base, builder.overlay, builder.shared
    {
      Apart(builder, books) && this !in builder.shared && this !in builder.Repr()
    }

    ghost function State(): EngineState
      reads this, builder
    {
      EngineState(builder.model, builder.header, builder.open, currentSeq, ready, needResync, dirty, views)
    }

    constructor ()
      ensures Valid() && State() == EngineState(map[], Header(0, 0, 0), false, 0, false, false, false, [])
      ensures books.Contents() == EmptyTables
    {
      builder := new LedgerBuilder<Item>();
      books := new LocalOrderBooks();
      currentSeq, ready, needResync, dirty := 0, false, false, false;
      published, views := null, [];
    }

    method PublishBuilder()
      requires Valid()
      modifies this`published, this`views, builder`frozen, builder`published, builder`shared, builder.base`keys,
               builder.overlay`useCount
      ensures Valid()
      ensures views == old(views) + [Published(builder.header, builder.open, builder.model)]
      ensures published != null && published.Valid() && published.model == builder.model
      ensures published.header == builder.header && published.open == builder.open
      ensures old(builder.published) <= builder.published
    {
      var view := builder.Publish();
      published := view;
      views := views + [Published(builder.header, builder.open, builder.model)];
    }

    /** Moves the builder on to the closed ledger, asking for a resync when the
        close skips a ledger or does not chain to the local one. */
    method AdoptClosedHeader(item: ApplyItem)
      requires Valid() && item.CloseItem?
      modifies this`currentSeq, this`needResync, builder`header, builder`open
      ensures Valid()
      ensures var m, s := MessageOf(item), old(State());
              State() == s.(header := ClosedHeader(s.header, m), open := false,
                            currentSeq := ClosedHeader(s.header, m).index,
                            needResync := s.needResync || ClosesWithGap(s.currentSeq, m) || ParentMismatch(s.header, m))
    {
      hide ClosedHeader, ClosesWithGap, ParentMismatch;
      var header, resync := NextHeader(item, builder.header, currentSeq);
      builder.SetHeader(header);
      builder.SetOpen(false);
      currentSeq, needResync := header.index, needResync || resync;
    }

    static method NextHeader(item: ApplyItem, prev: Header, currentSeq: nat) returns (header: Header, resync: bool)
      requires item.CloseItem?
      ensures header == ClosedHeader(prev, MessageOf(item))
      ensures resync <==> ClosesWithGap(currentSeq, MessageOf(item)) || ParentMismatch(prev, MessageOf(item))
    {
      var index := if item.index.Some? then item.index.value else 0;
      resync := index != 0 && currentSeq != 0 && index > currentSeq + 1;
      var parent := if item.parentHash.Some? then item.parentHash.value else prev.parentHash;
      if item.parentHash.None? && prev.hash != 0 {
        parent := prev.hash;
      } else if item.parentHash.Some? && prev.index != 0 && prev.hash != 0 && parent != 0 && parent != prev.hash {
        resync := true;
      }
      header := Header(if item.index.Some? then item.index.value else prev.index,
                       if item.hash.Some? then item.hash.value else prev.hash,
                       parent);
    }

    method ApplyLedgerClosed(item: ApplyItem)
      requires Valid() && item.CloseItem?
      modifies this, builder`header, builder`open, builder`frozen, builder`published, builder`shared
      modifies builder.base`keys, builder.overlay`useCount
      ensures Valid() && builder.Repr() == old(builder.Repr())
      ensures State() == OnLedgerClosed(old(State()), MessageOf(item))
    {
      hide ClosedHeader, ClosesWithGap, ParentMismatch, MessageOf, Apart;
      ghost var m, s := MessageOf(item), State();
      CloseFields(item);
      if !ready {
        return;
      }
      var index := if item.index.Some? then item.index.value else 0;
      if index != 0 && index <= currentSeq {
        return;
      }
      AdoptClosedHeader(item);
      PublishBuilder();
      dirty := false;
    }

    method ApplyTransaction(item: ApplyItem)
      requires Valid() && item.TxItem?
      modifies this`dirty, builder`overlay, builder`model, builder`open, builder.base`items, builder.overlay, books
      ensures Valid() && fresh(builder.Repr() - old(builder.Repr()))
      ensures State() == OnTransaction(old(State()), MessageOf(item))
      ensures books.Contents() ==
              if Accepts(old(State()), MessageOf(item)) && item.nodes.Some?
              then TablesAfter(old(books.Contents()), old(builder.model), Effects(item.nodes.value))
              else old(books.Contents())
      ensures Accepts(old(State()), MessageOf(item)) && item.nodes.Some? ==>
                exists log :: LogOf(item.nodes.value, log)
                  && builder.model == ObjectsAfter(old(builder.model), log)
                  && books.Contents() == TablesAfter(old(books.Contents()), old(builder.model), log)
                  && (dirty <==> old(dirty) || AnyApplied(old(builder.model), log))
    {
      hide ObjectsAfter, TablesAfter, Effects, AnyApplied, LogOf, Counts;
      if !ready || !ShouldApplyStreamTx(item.txIndex, currentSeq) || !item.validated {
        return;
      }
      builder.SetOpen(true);
      if item.nodes.None? {
        return;
      }
      ghost var objects, tables := builder.model, books.Contents();
      var stats := ApplyJsonAffectedNodes(builder, books, item.nodes.value);
      ghost var log :| LogOf(item.nodes.value, log) && builder.model == ObjectsAfter(objects, log)
        && books.Contents() == TablesAfter(tables, objects, log) && Counts(objects, log, item.nodes.value, stats);
      EffectsAreLog(item.nodes.value);
      CountsApplied(objects, log, item.nodes.value, stats);
      if stats.Applied() != 0 {
        dirty := true;
      }
    }

    /** Republishes a changed builder between closes, unless the workers are
        behind or no session is live. */
    method MidCloseTick(busy: bool, live: bool)
      requires Valid()
      modifies this`dirty, this`published, this`views, builder`frozen, builder`published, builder`shared,
               builder.base`keys, builder.overlay`useCount
      ensures Valid()
      ensures State() == if !busy && live then OnTick(old(State())) else old(State())
    {
      if busy || !live {
        return;
      }
      if dirty {
        dirty := false;
        PublishBuilder();
      }
    }

    method ApplyQueued(item: ApplyItem)
      requires Valid() && Coherent(books.Contents())
      modifies this, builder, builder.base, builder.overlay, books
      ensures Valid() && fresh(builder.Repr() - old(builder.Repr()))
      ensures State() == OnMessage(old(State()), MessageOf(item))
      ensures Coherent(books.Contents())
    {
      hide OnLedgerClosed, OnTransaction, TablesAfter, Effects, Coherent;
      if item.CloseItem? {
        ApplyLedgerClosed(item);
      } else {
        ghost var tables, objects := books.Contents(), builder.model;
        ApplyTransaction(item);
        if item.nodes.Some? {
          BooksStayCoherent(tables, objects, Effects(item.nodes.value));
        }
      }
    }

    /** One batch of the apply loop, in queue order; the books stay coherent. */
    method ApplyBatch(batch: seq<ApplyItem>)
      requires Valid() && Coherent(books.Contents())
      modifies this, builder, builder.base, builder.overlay, books
      ensures Valid() && fresh(builder.Repr() - old(builder.Repr()))
      ensures State() == OnMessages(old(State()), MessagesOf(batch))
      ensures Coherent(books.Contents())
    {
      hide OnMessage, Coherent, MessageOf, MessagesOf, Apart;
      ghost var start, ms := State(), MessagesOf(batch);
      MessagesLength(batch);
      for i := 0 to |batch|
        invariant Valid() && fresh(builder.Repr() - old(builder.Repr()))
        invariant State() == OnMessages(start, ms[..i])
        invariant Coherent(books.Contents())
      {
        MessagesNext(batch, i, start);
        ApplyQueued(batch[i]);
      }
      assert ms[..|batch|] == ms;
    }
  }
}
