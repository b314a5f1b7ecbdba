// One affected node of a transaction, applied to the ledger objects and the
// order books, and what replaying nodes does.

module MetaNodes {
  import opened Prelude
  import opened LedgerObjects
  import opened BookTables
  import opened BookProofs

  datatype Change = CreatedNode | ModifiedNode | DeletedNode

  /** An affected node with its inner fields (NewFields or FinalFields), if any. */
  datatype MetaNode = MetaNode(change: Change, key: Key, entryType: Option<Kind>, fields: Option<map<Field, Value>>)

  datatype MetaApply = NoChange | Created | Modified | Deleted | Incomplete

  predicate OfferComplete(e: Entry) {
    match e.kind.code
    case AmmType => HasLiquidity(e) && HasPoolAssets(e)
    case OfferType =>
      && {TakerPays, TakerGets, BookDirectory, Account} <= e.fields.Keys
      && NumField(e, TakerPays) != 0 && NumField(e, TakerGets) != 0
    case _ => true
  }

  /** What the stored object decodes to; a missing or undecodable one is None. */
  function Cloned(c: Option<Item>): Option<Entry> {
    if c.Some? && c.value.Decoded? then Some(c.value.entry) else None
  }

  /** The fields merged onto the current object, or onto an empty one of the
      node's type; None when the library throws. */
  function MergedEntry(c: Option<Item>, n: MetaNode): Option<Entry>
    requires n.fields.Some?
  {
    var target := if Cloned(c).Some? then Cloned(c)
                  else if n.entryType.Some? then Some(Entry(n.entryType.value, map[]))
                  else None;
    if target.Some? && n.fields.value.Keys <= target.value.kind.template then
      Some(Entry(target.value.kind, target.value.fields + n.fields.value))
    else None
  }

  function Outcome(c: Option<Item>, n: MetaNode): MetaApply {
    if n.change.DeletedNode? then Deleted
    else if n.fields.None? || MergedEntry(c, n).None? then NoChange
    else if !OfferComplete(MergedEntry(c, n).value) then Incomplete
    else if n.change.CreatedNode? then Created
    else Modified
  }

  /** The object a node leaves behind at its key. */
  function NextItem(c: Option<Item>, n: MetaNode): Option<Item> {
    if n.change.DeletedNode? then None
    else if n.fields.None? || MergedEntry(c, n).None? then c
    else
      var e := MergedEntry(c, n).value;
      if !OfferComplete(e) && e.kind.code.OfferType? then None else Some(Decoded(e))
  }

  /** The full object a deleted node describes, when its fields make one. */
  function FinalEntry(n: MetaNode): Option<Entry> {
    if n.fields.Some? && n.entryType.Some?
       && n.entryType.value.required <= n.fields.value.Keys <= n.entryType.value.template
    then Some(Entry(n.entryType.value, n.fields.value)) else None
  }

  function NextTables(t: Tables, c: Option<Item>, n: MetaNode): Tables {
    if n.change.DeletedNode? then
      if Cloned(c).Some? then RemoveFromSle(t, n.key, Cloned(c).value)
      else if FinalEntry(n).Some? then RemoveFromSle(t, n.key, FinalEntry(n).value)
      else t
    else if n.fields.None? || MergedEntry(c, n).None? then t
    else if OfferComplete(MergedEntry(c, n).value) then AddFromSle(t, n.key, MergedEntry(c, n).value)
    else RemoveFromSle(t, n.key, MergedEntry(c, n).value)
  }

  // ---- Whole logs ----

  function ItemAt(objects: map<Key, Item>, k: Key): Option<Item> {
    if k in objects then Some(objects[k]) else None
  }

  function SetItem(objects: map<Key, Item>, k: Key, c: Option<Item>): map<Key, Item> {
    if c.Some? then objects[k := c.value] else objects - {k}
  }

  function ApplyNode(objects: map<Key, Item>, n: MetaNode): map<Key, Item> {
    SetItem(objects, n.key, NextItem(ItemAt(objects, n.key), n))
  }

  function ObjectsAfter(objects: map<Key, Item>, log: seq<MetaNode>): map<Key, Item> {
    if log == [] then objects
    else ApplyNode(ObjectsAfter(objects, log[..|log| - 1]), log[|log| - 1])
  }

  function TablesAfter(t: Tables, objects: map<Key, Item>, log: seq<MetaNode>): Tables {
    if log == [] then t
    else
      var before := log[..|log| - 1];
      var n := log[|log| - 1];
      NextTables(TablesAfter(t, objects, before), ItemAt(ObjectsAfter(objects, before), n.key), n)
  }

  /** The object at key k after a log, looking at k alone. */
  function ItemAfter(c: Option<Item>, k: Key, log: seq<MetaNode>): Option<Item> {
    if log == [] then c
    else
      var before := ItemAfter(c, k, log[..|log| - 1]);
      if log[|log| - 1].key == k then NextItem(before, log[|log| - 1]) else before
  }

  lemma {:induction false} ItemsAreIndependent(objects: map<Key, Item>, k: Key, log: seq<MetaNode>)
    ensures ItemAt(ObjectsAfter(objects, log), k) == ItemAfter(ItemAt(objects, k), k, log)
  {
    if log == [] {
    } else {
      ItemsAreIndependent(objects, k, log[..|log| - 1]);
      ApplyNodeAt(ObjectsAfter(objects, log[..|log| - 1]), log[|log| - 1], k);
    }
  }

  lemma ApplyNodeAt(objects: map<Key, Item>, n: MetaNode, k: Key)
    ensures ItemAt(ApplyNode(objects, n), k) ==
            if n.key == k then NextItem(ItemAt(objects, k), n) else ItemAt(objects, k)
  {
  }

  lemma {:induction false} ItemAfterConcat(c: Option<Item>, k: Key, a: seq<MetaNode>, b: seq<MetaNode>)
    ensures ItemAfter(c, k, a + b) == ItemAfter(ItemAfter(c, k, a), k, b)
  {
    if b == [] {
      assert a + b == a;
    } else {
      ItemAfterConcat(c, k, a, b[..|b| - 1]);
      assert (a + b)[..|a + b| - 1] == a + b[..|b| - 1];
    }
  }

  lemma SameItems(a: map<Key, Item>, b: map<Key, Item>)
    requires forall k: Key :: ItemAt(a, k) == ItemAt(b, k)
    ensures a == b
  {
    assert forall k :: k in a ==> k in b && a[k] == b[k] by {
      forall k | k in a ensures k in b && a[k] == b[k] { assert ItemAt(a, k) == ItemAt(b, k); }
    }
    assert forall k :: k in b ==> k in a by {
      forall k | k in b ensures k in a { assert ItemAt(a, k) == ItemAt(b, k); }
    }
  }

  lemma ObjectsAfterConcat(objects: map<Key, Item>, a: seq<MetaNode>, b: seq<MetaNode>)
    ensures ObjectsAfter(objects, a + b) == ObjectsAfter(ObjectsAfter(objects, a), b)
  {
    forall k: Key
      ensures ItemAt(ObjectsAfter(objects, a + b), k) == ItemAt(ObjectsAfter(ObjectsAfter(objects, a), b), k)
    {
      ItemsAreIndependent(objects, k, a + b);
      ItemsAreIndependent(objects, k, a);
      ItemsAreIndependent(ObjectsAfter(objects, a), k, b);
      ItemAfterConcat(ItemAt(objects, k), k, a, b);
    }
    SameItems(ObjectsAfter(objects, a + b), ObjectsAfter(ObjectsAfter(objects, a), b));
  }

  /** The order books stay coherent over any log of nodes. */
  lemma {:induction false} BooksStayCoherent(t: Tables, objects: map<Key, Item>, log: seq<MetaNode>)
    requires Coherent(t)
    ensures Coherent(TablesAfter(t, objects, log))
  {
    if log == [] {
    } else {
      var before, n := log[..|log| - 1], log[|log| - 1];
      BooksStayCoherent(t, objects, before);
      NextTablesCoherent(TablesAfter(t, objects, before), ItemAt(ObjectsAfter(objects, before), n.key), n);
    }
  }

  lemma NextTablesCoherent(t: Tables, c: Option<Item>, n: MetaNode)
    requires Coherent(t)
    ensures Coherent(NextTables(t, c, n))
  {
    hide Coherent, AddFromSle, RemoveFromSle, OfferComplete, MergedEntry;
    if n.change.DeletedNode? {
      if Cloned(c).Some? {
        RemoveFromSleCoherent(t, n.key, Cloned(c).value);
      } else if FinalEntry(n).Some? {
        RemoveFromSleCoherent(t, n.key, FinalEntry(n).value);
      }
    } else if n.fields.Some? && MergedEntry(c, n).Some? {
      AddFromSleCoherent(t, n.key, MergedEntry(c, n).value);
      RemoveFromSleCoherent(t, n.key, MergedEntry(c, n).value);
    }
  }

  // ---- Replay ----

  /** The step neither erases an incomplete offer nor fails to start a new object. */
  predicate CleanStep(c: Option<Item>, n: MetaNode) {
    || n.change.DeletedNode?
    || n.fields.None?
    || if MergedEntry(c, n).Some?
       then MergedEntry(c, n).value.kind.code.OfferType? ==> OfferComplete(MergedEntry(c, n).value)
       else Cloned(c).Some?
  }

  ghost predicate Clean(objects: map<Key, Item>, log: seq<MetaNode>) {
    forall i :: 0 <= i < |log| ==> CleanStep(ItemAt(ObjectsAfter(objects, log[..i]), log[i].key), log[i])
  }

  ghost predicate CleanAt(c: Option<Item>, k: Key, log: seq<MetaNode>) {
    forall i :: 0 <= i < |log| && log[i].key == k ==> CleanStep(ItemAfter(c, k, log[..i]), log[i])
  }

  predicate DeletesKey(k: Key, log: seq<MetaNode>) {
    exists i :: 0 <= i < |log| && log[i].key == k && log[i].change.DeletedNode?
  }

  predicate Fits(kind: Kind, n: MetaNode) {
    n.fields.Some? && n.fields.value.Keys <= kind.template
  }

  /** All fields a log merges into an object of this kind at key k. */
  function Gathered(kind: Kind, k: Key, log: seq<MetaNode>): map<Field, Value> {
    if log == [] then map[]
    else
      var before := Gathered(kind, k, log[..|log| - 1]);
      if log[|log| - 1].key == k && Fits(kind, log[|log| - 1]) then before + log[|log| - 1].fields.value else before
  }

  predicate Merges(kind: Kind, k: Key, log: seq<MetaNode>) {
    exists i :: 0 <= i < |log| && log[i].key == k && Fits(kind, log[i])
  }

  function StartFields(c: Option<Item>): map<Field, Value> {
    if Cloned(c).Some? then Cloned(c).value.fields else map[]
  }

  /** A deletion forgets what was there before. */
  lemma {:induction false} DeleteForgets(a: Option<Item>, b: Option<Item>, k: Key, log: seq<MetaNode>)
    requires DeletesKey(k, log)
    ensures ItemAfter(a, k, log) == ItemAfter(b, k, log)
  {
    var before, n := log[..|log| - 1], log[|log| - 1];
    if !(n.key == k && n.change.DeletedNode?) {
      var i :| 0 <= i < |log| && log[i].key == k && log[i].change.DeletedNode?;
      assert before[i] == log[i];
      DeleteForgets(a, b, k, before);
    }
  }

  lemma CleanPrefix(c: Option<Item>, k: Key, log: seq<MetaNode>, i: nat)
    requires CleanAt(c, k, log) && i <= |log| && !DeletesKey(k, log)
    ensures CleanAt(c, k, log[..i]) && !DeletesKey(k, log[..i])
  {
    forall j | 0 <= j < i && log[..i][j].key == k
      ensures CleanStep(ItemAfter(c, k, log[..i][..j]), log[..i][j])
    {
      assert log[..i][..j] == log[..j];
    }
  }

  /** What a clean run without deletions leaves at its key. */
  ghost predicate Settled(c: Option<Item>, k: Key, log: seq<MetaNode>) {
    var f := ItemAfter(c, k, log);
    if Cloned(f).Some? then
      var e := Cloned(f).value;
      && e.fields == StartFields(c) + Gathered(e.kind, k, log)
      && (e.kind.code.OfferType? && Merges(e.kind, k, log) ==> OfferComplete(e))
    else f == c && forall i :: 0 <= i < |log| && log[i].key == k ==> log[i].fields.None?
  }

  lemma {:induction false} NothingGathered(kind: Kind, k: Key, log: seq<MetaNode>)
    requires forall i :: 0 <= i < |log| && log[i].key == k ==> log[i].fields.None?
    ensures Gathered(kind, k, log) == map[]
  {
    if log == [] {
    } else {
      NothingGathered(kind, k, log[..|log| - 1]);
    }
  }

  lemma {:induction false} RunSettles(c: Option<Item>, k: Key, log: seq<MetaNode>)
    requires CleanAt(c, k, log) && !DeletesKey(k, log)
    ensures Settled(c, k, log)
  {
    if log == [] {
      assert StartFields(c) + map[] == StartFields(c);
    } else {
      var before, n := log[..|log| - 1], log[|log| - 1];
      CleanPrefix(c, k, log, |log| - 1);
      RunSettles(c, k, before);
      StepSettles(c, k, before, n);
      assert before + [n] == log;
    }
  }

  lemma ItemAfterNext(c: Option<Item>, k: Key, log: seq<MetaNode>, n: MetaNode)
    ensures ItemAfter(c, k, log + [n]) == if n.key == k then NextItem(ItemAfter(c, k, log), n) else ItemAfter(c, k, log)
  {
    hide NextItem;
    assert (log + [n])[..|log|] == log;
  }

  lemma GatheredNext(kind: Kind, k: Key, log: seq<MetaNode>, n: MetaNode)
    ensures Gathered(kind, k, log + [n]) ==
            if n.key == k && Fits(kind, n) then Gathered(kind, k, log) + n.fields.value else Gathered(kind, k, log)
  {
    assert (log + [n])[..|log|] == log;
  }

  lemma StepSettles(c: Option<Item>, k: Key, log: seq<MetaNode>, n: MetaNode)
    requires Settled(c, k, log)
    requires n.key == k ==> CleanStep(ItemAfter(c, k, log), n) && !n.change.DeletedNode?
    ensures Settled(c, k, log + [n])
    ensures Cloned(ItemAfter(c, k, log)).Some? ==>
              && Cloned(ItemAfter(c, k, log + [n])).Some?
              && Cloned(ItemAfter(c, k, log + [n])).value.kind == Cloned(ItemAfter(c, k, log)).value.kind
  {
    hide Settled, CleanStep, NextItem;
    ItemAfterNext(c, k, log, n);
    if n.key == k && n.fields.Some? {
      if Cloned(ItemAfter(c, k, log)).Some? {
        MergeSettles(c, k, log, n);
      } else {
        StartSettles(c, k, log, n);
      }
    } else {
      NothingMerged(ItemAfter(c, k, log), n);
      IdleSettles(c, k, log, n);
    }
  }

  lemma NothingMerged(c: Option<Item>, n: MetaNode)
    ensures n.fields.None? && !n.change.DeletedNode? ==> NextItem(c, n) == c
  {
  }

  /** A node for another key, or without fields, settles nothing new. */
  lemma IdleSettles(c: Option<Item>, k: Key, log: seq<MetaNode>, n: MetaNode)
    requires Settled(c, k, log) && (n.key != k || n.fields.None?)
    requires ItemAfter(c, k, log + [n]) == ItemAfter(c, k, log)
    ensures Settled(c, k, log + [n])
  {
    hide ItemAfter, Gathered, Merges;
    var x := Cloned(ItemAfter(c, k, log));
    if x.Some? {
      GatheredNext(x.value.kind, k, log, n);
      MergesMore(x.value.kind, k, log, n);
    } else {
      assert forall i :: 0 <= i < |log| ==> (log + [n])[i] == log[i];
    }
  }

  /** The first node with fields starts the object. */
  lemma StartSettles(c: Option<Item>, k: Key, log: seq<MetaNode>, n: MetaNode)
    requires Settled(c, k, log) && n.key == k && n.fields.Some? && !n.change.DeletedNode?
    requires Cloned(ItemAfter(c, k, log)).None? && CleanStep(ItemAfter(c, k, log), n)
    ensures Settled(c, k, log + [n])
  {
    hide ItemAfter, Gathered, Merges, OfferComplete;
    var x := ItemAfter(c, k, log);
    var e := MergedEntry(x, n).value;
    ItemAfterNext(c, k, log, n);
    NothingGathered(e.kind, k, log);
    GatheredNext(e.kind, k, log, n);
    assert map[] + n.fields.value == n.fields.value;
    assert StartFields(c) == map[];
  }

  lemma MergesMore(kind: Kind, k: Key, log: seq<MetaNode>, n: MetaNode)
    ensures Merges(kind, k, log + [n]) <==> Merges(kind, k, log) || (n.key == k && Fits(kind, n))
  {
    assert forall i :: 0 <= i < |log| ==> (log + [n])[i] == log[i];
    assert (log + [n])[|log|] == n;
    if Merges(kind, k, log) {
      var i :| 0 <= i < |log| && log[i].key == k && Fits(kind, log[i]);
      assert (log + [n])[i] == log[i];
    }
  }

  lemma MergeSettles(c: Option<Item>, k: Key, log: seq<MetaNode>, n: MetaNode)
    requires Settled(c, k, log) && n.key == k && n.fields.Some? && !n.change.DeletedNode?
    requires Cloned(ItemAfter(c, k, log)).Some? && CleanStep(ItemAfter(c, k, log), n)
    ensures Settled(c, k, log + [n])
    ensures Cloned(ItemAfter(c, k, log + [n])).Some?
    ensures Cloned(ItemAfter(c, k, log + [n])).value.kind == Cloned(ItemAfter(c, k, log)).value.kind
  {
    var more := log + [n];
    assert more[..|more| - 1] == log && more[|more| - 1] == n;
    var x := ItemAfter(c, k, log);
    var kind := Cloned(x).value.kind;
    MergesMore(kind, k, log, n);
    if Fits(kind, n) {
      assert StartFields(c) + (Gathered(kind, k, log) + n.fields.value) ==
               StartFields(c) + Gathered(kind, k, log) + n.fields.value;
    }
  }

  /** Once an object is there, its kind stays to the end of a clean run. */
  lemma {:induction false} KindStays(c: Option<Item>, k: Key, log: seq<MetaNode>, i: nat)
    requires CleanAt(c, k, log) && !DeletesKey(k, log) && i <= |log|
    requires Cloned(ItemAfter(c, k, log[..i])).Some?
    ensures Cloned(ItemAfter(c, k, log)).Some?
    ensures Cloned(ItemAfter(c, k, log)).value.kind == Cloned(ItemAfter(c, k, log[..i])).value.kind
  {
    if i == |log| {
      assert log[..i] == log;
    } else {
      var before := log[..|log| - 1];
      CleanPrefix(c, k, log, |log| - 1);
      assert before[..i] == log[..i];
      KindStays(c, k, before, i);
      RunSettles(c, k, before);
      StepSettles(c, k, before, log[|log| - 1]);
      assert before + [log[|log| - 1]] == log;
    }
  }

  /** An offer complete with some fields and complete with others is complete
      with the first laid over the second. */
  lemma CompleteMix(kind: Kind, start: map<Field, Value>, some: map<Field, Value>, all: map<Field, Value>)
    requires kind.code.OfferType?
    requires OfferComplete(Entry(kind, start + some)) && OfferComplete(Entry(kind, start + all))
    ensures OfferComplete(Entry(kind, start + all + some))
  {
    assert forall f :: f in some ==> (start + some)[f] == some[f] && (start + all + some)[f] == some[f];
    assert forall f :: f in start + all && f !in some ==> (start + all + some)[f] == (start + all)[f];
  }

  /** The first i nodes, replayed onto the result of the whole log. */
  lemma {:induction false} ReplayPrefix(c: Option<Item>, k: Key, log: seq<MetaNode>, i: nat)
    requires CleanAt(c, k, log) && !DeletesKey(k, log) && i <= |log|
    requires Cloned(ItemAfter(c, k, log)).Some?
    ensures var e := Cloned(ItemAfter(c, k, log)).value;
            ItemAfter(ItemAfter(c, k, log), k, log[..i]) ==
              Some(Decoded(Entry(e.kind, e.fields + Gathered(e.kind, k, log[..i]))))
  {
    var f := ItemAfter(c, k, log);
    var e := Cloned(f).value;
    if i == 0 {
      assert e.fields + map[] == e.fields;
    } else {
      ReplayPrefix(c, k, log, i - 1);
      var sofar, n := log[..i - 1], log[i - 1];
      assert log[..i][..i - 1] == sofar && log[..i][i - 1] == n;
      if n.key == k && n.fields.Some? && Fits(e.kind, n) {
        ReplayComplete(c, k, log, i);
        assert e.fields + (Gathered(e.kind, k, sofar) + n.fields.value) ==
                 e.fields + Gathered(e.kind, k, sofar) + n.fields.value;
      }
    }
  }

  /** Replayed merges never see an incomplete offer. */
  lemma ReplayComplete(c: Option<Item>, k: Key, log: seq<MetaNode>, i: nat)
    requires CleanAt(c, k, log) && !DeletesKey(k, log) && 0 < i <= |log|
    requires Cloned(ItemAfter(c, k, log)).Some?
    requires log[i - 1].key == k && Fits(Cloned(ItemAfter(c, k, log)).value.kind, log[i - 1])
    ensures var e := Cloned(ItemAfter(c, k, log)).value;
            e.kind.code.OfferType? ==> OfferComplete(Entry(e.kind, e.fields + Gathered(e.kind, k, log[..i])))
  {
    var e := Cloned(ItemAfter(c, k, log)).value;
    CleanPrefix(c, k, log, i);
    RunSettles(c, k, log);
    RunSettles(c, k, log[..i]);
    assert log[..i][i - 1] == log[i - 1];
    KindStays(c, k, log, i);
    if e.kind.code.OfferType? {
      CompleteMix(e.kind, StartFields(c), Gathered(e.kind, k, log[..i]), Gathered(e.kind, k, log));
    }
  }

  lemma {:induction false} NothingApplies(c: Option<Item>, k: Key, log: seq<MetaNode>)
    requires !DeletesKey(k, log)
    requires forall i :: 0 <= i < |log| && log[i].key == k ==> log[i].fields.None?
    ensures ItemAfter(c, k, log) == c
  {
    if log == [] {
    } else {
      var before := log[..|log| - 1];
      assert forall i :: 0 <= i < |before| ==> before[i] == log[i];
      NothingApplies(c, k, before);
    }
  }

  lemma ReplayItem(c: Option<Item>, k: Key, log: seq<MetaNode>)
    requires DeletesKey(k, log) || CleanAt(c, k, log)
    ensures ItemAfter(ItemAfter(c, k, log), k, log) == ItemAfter(c, k, log)
  {
    var f := ItemAfter(c, k, log);
    if DeletesKey(k, log) {
      DeleteForgets(c, f, k, log);
    } else {
      RunSettles(c, k, log);
      if Cloned(f).Some? {
        ReplayPrefix(c, k, log, |log|);
        assert log[..|log|] == log;
        var e := Cloned(f).value;
        var g := Gathered(e.kind, k, log);
        assert StartFields(c) + g + g == StartFields(c) + g;
      } else {
        NothingApplies(f, k, log);
      }
    }
  }
}
