// What replaying a log does: exactly when it changes its own result, for logs
// that keep to one kind of object at a key, and what suffices for the others.

module Replay {
  import opened Prelude
  import opened LedgerObjects
  import opened MetaNodes

  // ---- One kind of object at a key ----

  /** Every node at the key names this kind, and none deletes. */
  predicate Plain(kind: Kind, k: Key, log: seq<MetaNode>) {
    forall i :: 0 <= i < |log| && log[i].key == k ==> !log[i].change.DeletedNode? && log[i].entryType == Some(kind)
  }

  /** Nothing, or something that does not decode, or an object of this kind. */
  predicate Starts(kind: Kind, c: Option<Item>) {
    Cloned(c).Some? ==> Cloned(c).value.kind == kind
  }

  predicate FitsAt(kind: Kind, k: Key, n: MetaNode) {
    n.key == k && Fits(kind, n)
  }

  /** What a fitting node makes of the object. */
  function Merged(kind: Kind, x: Option<Item>, fields: map<Field, Value>): Option<Item> {
    var e := Entry(kind, StartFields(x) + fields);
    if kind.code.OfferType? && !OfferComplete(e) then None else Some(Decoded(e))
  }

  lemma PlainStep(kind: Kind, x: Option<Item>, n: MetaNode)
    requires Starts(kind, x) && !n.change.DeletedNode? && n.entryType == Some(kind)
    ensures NextItem(x, n) == if Fits(kind, n) then Merged(kind, x, n.fields.value) else x
    ensures Starts(kind, NextItem(x, n))
    ensures kind.code.OfferType? ==>
              (Outcome(x, n).Incomplete? <==> Fits(kind, n) && Merged(kind, x, n.fields.value).None?)
  {
  }

  lemma PlainParts(kind: Kind, k: Key, a: seq<MetaNode>, b: seq<MetaNode>)
    requires Plain(kind, k, a + b)
    ensures Plain(kind, k, a) && Plain(kind, k, b)
  {
    assert forall i :: 0 <= i < |a| ==> (a + b)[i] == a[i];
    assert forall i :: 0 <= i < |b| ==> (a + b)[|a| + i] == b[i];
  }

  lemma PlainLast(kind: Kind, k: Key, log: seq<MetaNode>)
    requires log != [] && Plain(kind, k, log)
    ensures var before, n := log[..|log| - 1], log[|log| - 1];
            Plain(kind, k, before) && (n.key == k ==> !n.change.DeletedNode? && n.entryType == Some(kind))
  {
  }

  /** The last node of a plain log, applied to what the rest leaves. */
  lemma {:induction false} PlainRun(kind: Kind, c: Option<Item>, k: Key, log: seq<MetaNode>)
    requires Starts(kind, c) && Plain(kind, k, log)
    ensures Starts(kind, ItemAfter(c, k, log))
    ensures log != [] ==>
              var before, n := log[..|log| - 1], log[|log| - 1];
              && Plain(kind, k, before) && Starts(kind, ItemAfter(c, k, before))
              && ItemAfter(c, k, log) ==
                 if FitsAt(kind, k, n) then Merged(kind, ItemAfter(c, k, before), n.fields.value)
                 else ItemAfter(c, k, before)
  {
    hide Starts, NextItem, Merged, Fits, Plain;
    if log == [] {
    } else {
      var before, n := log[..|log| - 1], log[|log| - 1];
      PlainLast(kind, k, log);
      PlainRun(kind, c, k, before);
      if n.key == k {
        PlainStep(kind, ItemAfter(c, k, before), n);
      }
    }
  }

  lemma MergesLast(kind: Kind, k: Key, log: seq<MetaNode>)
    requires log != []
    ensures var before, n := log[..|log| - 1], log[|log| - 1];
            && (Merges(kind, k, log) <==> Merges(kind, k, before) || FitsAt(kind, k, n))
            && Gathered(kind, k, log) ==
               if FitsAt(kind, k, n) then Gathered(kind, k, before) + n.fields.value else Gathered(kind, k, before)
  {
    assert log == log[..|log| - 1] + [log[|log| - 1]];
    MergesMore(kind, k, log[..|log| - 1], log[|log| - 1]);
  }

  /** The first run erases an incomplete object at step i. */
  predicate ErasesAt(c: Option<Item>, k: Key, log: seq<MetaNode>, i: nat) {
    i < |log| && log[i].key == k && Outcome(ItemAfter(c, k, log[..i]), log[i]).Incomplete?
  }

  ghost predicate NeverErases(kind: Kind, c: Option<Item>, k: Key, log: seq<MetaNode>) {
    kind.code.OfferType? ==> forall i: nat :: !ErasesAt(c, k, log, i)
  }

  lemma ErasesBefore(c: Option<Item>, k: Key, log: seq<MetaNode>, i: nat)
    requires log != [] && i < |log| - 1
    ensures ErasesAt(c, k, log, i) <==> ErasesAt(c, k, log[..|log| - 1], i)
  {
    assert log[..|log| - 1][..i] == log[..i];
  }

  /** A run that erases nothing gathers all fields onto what was there. */
  lemma {:induction false} RunGathers(kind: Kind, c: Option<Item>, k: Key, log: seq<MetaNode>)
    requires Starts(kind, c) && Plain(kind, k, log) && NeverErases(kind, c, k, log)
    ensures ItemAfter(c, k, log) ==
            if Merges(kind, k, log) then Some(Decoded(Entry(kind, StartFields(c) + Gathered(kind, k, log)))) else c
    ensures Merges(kind, k, log) && kind.code.OfferType? ==>
              OfferComplete(Entry(kind, StartFields(c) + Gathered(kind, k, log)))
  {
    hide Gathered, Merges, Starts, OfferComplete;
    if log == [] {
      NothingMerges(kind, k);
    } else {
      var before, n := log[..|log| - 1], log[|log| - 1];
      PlainRun(kind, c, k, log);
      MergesLast(kind, k, log);
      forall i: nat | i < |log| - 1
        ensures ErasesAt(c, k, log, i) <==> ErasesAt(c, k, before, i)
      {
        ErasesBefore(c, k, log, i);
      }
      RunGathers(kind, c, k, before);
      if FitsAt(kind, k, n) {
        LastKeeps(kind, c, k, log);
        NothingGatheredWithoutMerge(kind, k, before);
        assert StartFields(c) + map[] == StartFields(c);
        assert StartFields(c) + (Gathered(kind, k, before) + n.fields.value) ==
               StartFields(c) + Gathered(kind, k, before) + n.fields.value;
      }
    }
  }

  lemma NothingMerges(kind: Kind, k: Key)
    ensures !Merges(kind, k, []) && Gathered(kind, k, []) == map[]
  {
  }

  lemma {:induction false} NothingGatheredWithoutMerge(kind: Kind, k: Key, log: seq<MetaNode>)
    ensures !Merges(kind, k, log) ==> Gathered(kind, k, log) == map[]
  {
    hide Merges;
    if log == [] {
    } else {
      MergesLast(kind, k, log);
      NothingGatheredWithoutMerge(kind, k, log[..|log| - 1]);
    }
  }

  lemma LastKeeps(kind: Kind, c: Option<Item>, k: Key, log: seq<MetaNode>)
    requires log != [] && Starts(kind, c) && Plain(kind, k, log) && NeverErases(kind, c, k, log)
    requires FitsAt(kind, k, log[|log| - 1])
    ensures Merged(kind, ItemAfter(c, k, log[..|log| - 1]), log[|log| - 1].fields.value).Some?
  {
    hide Merged, Starts;
    PlainRun(kind, c, k, log);
    if kind.code.OfferType? {
      PlainStep(kind, ItemAfter(c, k, log[..|log| - 1]), log[|log| - 1]);
      assert !ErasesAt(c, k, log, |log| - 1);
    } else {
      MergedWhenKept(kind, ItemAfter(c, k, log[..|log| - 1]), log[|log| - 1].fields.value);
    }
  }

  lemma MergedWhenKept(kind: Kind, x: Option<Item>, fields: map<Field, Value>)
    requires !kind.code.OfferType?
    ensures Merged(kind, x, fields).Some?
  {
  }

  // ---- Offers: zeroed, surviving, erased ----

  predicate SetsZero(fields: map<Field, Value>, f: Field) {
    f in fields && (!fields[f].Num? || fields[f].n == 0)
  }

  /** A fitting node sets one of the two amounts to zero. */
  predicate Zeroes(kind: Kind, k: Key, n: MetaNode) {
    FitsAt(kind, k, n) && (SetsZero(n.fields.value, TakerPays) || SetsZero(n.fields.value, TakerGets))
  }

  predicate Zeroed(kind: Kind, k: Key, log: seq<MetaNode>) {
    exists i :: 0 <= i < |log| && Zeroes(kind, k, log[i])
  }

  lemma ZeroedLast(kind: Kind, k: Key, log: seq<MetaNode>)
    requires log != []
    ensures Zeroed(kind, k, log) <==> Zeroed(kind, k, log[..|log| - 1]) || Zeroes(kind, k, log[|log| - 1])
  {
    var before := log[..|log| - 1];
    if Zeroed(kind, k, before) {
      var i :| 0 <= i < |before| && Zeroes(kind, k, before[i]);
      assert log[i] == before[i];
    }
    assert forall i :: 0 <= i < |before| ==> log[i] == before[i];
  }

  lemma ZeroErases(kind: Kind, k: Key, x: Option<Item>, n: MetaNode)
    requires kind.code.OfferType? && Zeroes(kind, k, n)
    ensures Merged(kind, x, n.fields.value) == None
  {
  }

  /** After a node that zeroes an amount nothing of the start is left. */
  lemma {:induction false} ZeroForgets(kind: Kind, a: Option<Item>, b: Option<Item>, k: Key, log: seq<MetaNode>)
    requires kind.code.OfferType? && Starts(kind, a) && Starts(kind, b) && Plain(kind, k, log)
    requires Zeroed(kind, k, log)
    ensures ItemAfter(a, k, log) == ItemAfter(b, k, log)
  {
    hide Merged, Starts, Zeroed, ItemAfter;
    NothingZeroed(kind, k);
    if log != [] {
      var before, n := log[..|log| - 1], log[|log| - 1];
      PlainRun(kind, a, k, log);
      PlainRun(kind, b, k, log);
      ZeroedLast(kind, k, log);
      if Zeroes(kind, k, n) {
        ZeroErases(kind, k, ItemAfter(a, k, before), n);
        ZeroErases(kind, k, ItemAfter(b, k, before), n);
      } else {
        ZeroForgets(kind, a, b, k, before);
      }
    }
  }

  lemma NothingZeroed(kind: Kind, k: Key)
    ensures !Zeroed(kind, k, [])
  {
  }

  /** A complete offer of this kind. */
  predicate Whole(kind: Kind, x: Option<Item>) {
    Cloned(x).Some? && Cloned(x).value.kind == kind && OfferComplete(Cloned(x).value)
  }

  lemma WholeStays(kind: Kind, x: Option<Item>, k: Key, n: MetaNode)
    requires kind.code.OfferType? && Whole(kind, x) && FitsAt(kind, k, n) && !Zeroes(kind, k, n)
    ensures Merged(kind, x, n.fields.value) == Some(Decoded(Entry(kind, StartFields(x) + n.fields.value)))
    ensures Whole(kind, Merged(kind, x, n.fields.value))
  {
  }

  /** Without such a node a complete offer only gathers. */
  lemma {:induction false} WholeGathers(kind: Kind, x: Option<Item>, k: Key, log: seq<MetaNode>)
    requires kind.code.OfferType? && Whole(kind, x) && Plain(kind, k, log) && !Zeroed(kind, k, log)
    ensures ItemAfter(x, k, log) == Some(Decoded(Entry(kind, StartFields(x) + Gathered(kind, k, log))))
    ensures Whole(kind, ItemAfter(x, k, log))
  {
    hide Merged, Zeroed, Zeroes, Gathered, Whole;
    WholeIs(kind, x);
    if log == [] {
      NothingMerges(kind, k);
      assert StartFields(x) + map[] == StartFields(x);
    } else {
      var before, n := log[..|log| - 1], log[|log| - 1];
      PlainRun(kind, x, k, log);
      MergesLast(kind, k, log);
      ZeroedLast(kind, k, log);
      WholeGathers(kind, x, k, before);
      if FitsAt(kind, k, n) {
        WholeStays(kind, ItemAfter(x, k, before), k, n);
        assert StartFields(x) + (Gathered(kind, k, before) + n.fields.value) ==
               StartFields(x) + Gathered(kind, k, before) + n.fields.value;
      }
    }
  }

  lemma WholeIs(kind: Kind, x: Option<Item>)
    requires Whole(kind, x)
    ensures x == Some(Decoded(Entry(kind, StartFields(x)))) && Starts(kind, x)
  {
  }

  lemma MoreIsWhole(kind: Kind, x: Option<Item>, k: Key, n: MetaNode)
    requires kind.code.OfferType? && Starts(kind, x) && FitsAt(kind, k, n)
    ensures Whole(kind, Merged(kind, None, n.fields.value)) ==> Whole(kind, Merged(kind, x, n.fields.value))
    ensures Merged(kind, x, n.fields.value).None? || Whole(kind, Merged(kind, x, n.fields.value))
  {
    assert map[] + n.fields.value == n.fields.value;
  }

  /** An offer that survives from nothing survives from anything. */
  lemma {:induction false} SurvivesFromAnything(kind: Kind, c: Option<Item>, k: Key, log: seq<MetaNode>)
    requires kind.code.OfferType? && Starts(kind, c) && Plain(kind, k, log) && !Zeroed(kind, k, log)
    ensures ItemAfter(None, k, log) == None || Whole(kind, ItemAfter(None, k, log))
    ensures Whole(kind, ItemAfter(None, k, log)) ==> Whole(kind, ItemAfter(c, k, log))
  {
    hide Merged, Zeroed, Zeroes, Whole;
    NothingWhole(kind);
    if log == [] {
    } else {
      var before, n := log[..|log| - 1], log[|log| - 1];
      PlainRun(kind, c, k, log);
      PlainRun(kind, None, k, log);
      ZeroedLast(kind, k, log);
      SurvivesFromAnything(kind, c, k, before);
      if FitsAt(kind, k, n) {
        MoreIsWhole(kind, ItemAfter(c, k, before), k, n);
        MoreIsWhole(kind, ItemAfter(None, k, before), k, n);
        if Whole(kind, ItemAfter(None, k, before)) {
          WholeStays(kind, ItemAfter(c, k, before), k, n);
        }
      }
    }
  }

  lemma NothingWhole(kind: Kind)
    ensures !Whole(kind, None)
  {
  }

  /** What a run can leave: the start, nothing, or a complete offer. */
  lemma {:induction false} RunLeaves(kind: Kind, c: Option<Item>, k: Key, log: seq<MetaNode>)
    requires kind.code.OfferType? && Starts(kind, c) && Plain(kind, k, log)
    ensures var f := ItemAfter(c, k, log); f == c || f == None || Whole(kind, f)
  {
    hide Merged, Whole;
    if log == [] {
    } else {
      PlainRun(kind, c, k, log);
      RunLeaves(kind, c, k, log[..|log| - 1]);
      if FitsAt(kind, k, log[|log| - 1]) {
        MoreIsWhole(kind, ItemAfter(c, k, log[..|log| - 1]), k, log[|log| - 1]);
      }
    }
  }

  // ---- When replay drifts ----

  /** The field is set up to step i and never again. */
  ghost predicate SetOnlyUpTo(kind: Kind, k: Key, log: seq<MetaNode>, i: nat, f: Field) {
    i < |log| && f in Gathered(kind, k, log[..i + 1]) && f !in Gathered(kind, k, log[i + 1..])
  }

  /** An offer the first run erases at some step and leaves in the end, no node
      zeroing it, with a field that only the erased part of the log sets. */
  ghost predicate Drifts(kind: Kind, c: Option<Item>, k: Key, log: seq<MetaNode>) {
    && kind.code.OfferType? && !Zeroed(kind, k, log) && ItemAfter(c, k, log).Some?
    && exists i: nat, f :: ErasesAt(c, k, log, i) && SetOnlyUpTo(kind, k, log, i, f)
  }

  lemma OnlyUpTo(kind: Kind, k: Key, log: seq<MetaNode>, i: nat)
    requires i < |log|
    ensures Gathered(kind, k, log) == Gathered(kind, k, log[..i + 1]) + Gathered(kind, k, log[i + 1..])
  {
    assert log == log[..i + 1] + log[i + 1..];
    GatheredConcat(kind, k, log[..i + 1], log[i + 1..]);
  }

  lemma {:induction false} GatheredConcat(kind: Kind, k: Key, a: seq<MetaNode>, b: seq<MetaNode>)
    ensures Gathered(kind, k, a + b) == Gathered(kind, k, a) + Gathered(kind, k, b)
  {
    hide Gathered, Merges;
    if b == [] {
      assert a + b == a;
      NothingMerges(kind, k);
    } else {
      var before, n := b[..|b| - 1], b[|b| - 1];
      assert (a + b)[..|a + b| - 1] == a + before;
      GatheredConcat(kind, k, a, before);
      MergesLast(kind, k, a + b);
      MergesLast(kind, k, b);
      if FitsAt(kind, k, n) {
        assert Gathered(kind, k, a) + (Gathered(kind, k, before) + n.fields.value) ==
               Gathered(kind, k, a) + Gathered(kind, k, before) + n.fields.value;
      }
    }
  }

  lemma Overwrites(a: map<Field, Value>, b: map<Field, Value>)
    ensures b + (a + b) == b <==> a.Keys <= b.Keys
  {
    if a.Keys <= b.Keys {
      assert b + (a + b) == b;
    } else {
      var f :| f in a && f !in b;
      assert f in b + (a + b);
    }
  }

  lemma LastErase(c: Option<Item>, k: Key, log: seq<MetaNode>, i: nat) returns (last: nat)
    requires ErasesAt(c, k, log, i)
    ensures i <= last < |log| && ErasesAt(c, k, log, last) && forall j: nat :: last < j ==> !ErasesAt(c, k, log, j)
    decreases |log| - i
  {
    hide Outcome;
    if j: nat :| i < j && ErasesAt(c, k, log, j) {
      last := LastErase(c, k, log, j);
    } else {
      last := i;
    }
  }

  /** After its last erase the run is one from nothing that erases nothing. */
  lemma AfterLastErase(kind: Kind, c: Option<Item>, k: Key, log: seq<MetaNode>, last: nat)
    requires kind.code.OfferType? && Starts(kind, c) && Plain(kind, k, log)
    requires ErasesAt(c, k, log, last) && forall j: nat :: last < j ==> !ErasesAt(c, k, log, j)
    ensures var rest := log[last + 1..];
            && ItemAfter(c, k, log) == ItemAfter(None, k, rest)
            && Plain(kind, k, rest) && NeverErases(kind, None, k, rest)
  {
    hide Outcome, Merged, Starts;
    var rest := log[last + 1..];
    ErasedHere(kind, c, k, log, last);
    assert log == log[..last + 1] + rest;
    PlainParts(kind, k, log[..last + 1], rest);
    ItemAfterConcat(c, k, log[..last + 1], rest);
    forall j: nat
      ensures !ErasesAt(None, k, rest, j)
    {
      if j < |rest| {
        assert log[..last + 1 + j] == log[..last + 1] + rest[..j];
        ItemAfterConcat(c, k, log[..last + 1], rest[..j]);
        assert !ErasesAt(c, k, log, last + 1 + j);
      }
    }
  }

  lemma ErasedHere(kind: Kind, c: Option<Item>, k: Key, log: seq<MetaNode>, i: nat)
    requires kind.code.OfferType? && Starts(kind, c) && Plain(kind, k, log) && ErasesAt(c, k, log, i)
    ensures ItemAfter(c, k, log[..i + 1]) == None
  {
    hide Merged, Outcome;
    assert log == log[..i + 1] + log[i + 1..];
    PlainParts(kind, k, log[..i + 1], log[i + 1..]);
    assert log[..i + 1][..i] == log[..i];
    PlainRun(kind, c, k, log[..i + 1]);
    PlainStep(kind, ItemAfter(c, k, log[..i]), log[i]);
  }

  /** Replaying onto the offer the run left changes it exactly when it drifts. */
  lemma OfferReplay(kind: Kind, c: Option<Item>, k: Key, log: seq<MetaNode>)
    requires kind.code.OfferType? && Starts(kind, c) && Plain(kind, k, log) && !Zeroed(kind, k, log)
    requires Whole(kind, ItemAfter(c, k, log)) && ItemAfter(c, k, log) != c
    ensures ItemAfter(ItemAfter(c, k, log), k, log) == ItemAfter(c, k, log) <==> !Drifts(kind, c, k, log)
  {
    hide Zeroed, ErasesAt, Starts, Whole;
    var f := ItemAfter(c, k, log);
    WholeIs(kind, f);
    WholeGathers(kind, f, k, log);
    if i: nat :| ErasesAt(c, k, log, i) {
      var last := LastErase(c, k, log, i);
      AfterLastErase(kind, c, k, log, last);
      ErasedReplay(kind, c, k, log, last);
    } else {
      RunGathers(kind, c, k, log);
      var g := Gathered(kind, k, log);
      assert StartFields(c) + g + g == StartFields(c) + g;
    }
  }

  lemma ErasedReplay(kind: Kind, c: Option<Item>, k: Key, log: seq<MetaNode>, last: nat)
    requires kind.code.OfferType? && !Zeroed(kind, k, log) && Whole(kind, ItemAfter(c, k, log))
    requires last < |log| && ErasesAt(c, k, log, last) && forall j: nat :: last < j ==> !ErasesAt(c, k, log, j)
    requires ItemAfter(c, k, log) == ItemAfter(None, k, log[last + 1..])
    requires Plain(kind, k, log[last + 1..]) && NeverErases(kind, None, k, log[last + 1..])
    ensures StartFields(ItemAfter(c, k, log)) + Gathered(kind, k, log) == StartFields(ItemAfter(c, k, log)) <==>
              !Drifts(kind, c, k, log)
  {
    hide Zeroed, ErasesAt, Gathered, Merges;
    var a, b := Gathered(kind, k, log[..last + 1]), Gathered(kind, k, log[last + 1..]);
    RunGathers(kind, None, k, log[last + 1..]);
    assert map[] + b == b;
    OnlyUpTo(kind, k, log, last);
    Overwrites(a, b);
    if !(a.Keys <= b.Keys) {
      var f :| f in a && f !in b;
      assert SetOnlyUpTo(kind, k, log, last, f);
    } else {
      forall i: nat, f | ErasesAt(c, k, log, i)
        ensures !SetOnlyUpTo(kind, k, log, i, f)
      {
        assert i <= last;
        EarlierSets(kind, k, log, i, last, f);
      }
    }
  }

  lemma EarlierSets(kind: Kind, k: Key, log: seq<MetaNode>, i: nat, last: nat, f: Field)
    requires i <= last < |log|
    ensures SetOnlyUpTo(kind, k, log, i, f) ==> SetOnlyUpTo(kind, k, log, last, f)
  {
    hide Gathered;
    assert log[..last + 1] == log[..i + 1] + log[i + 1..last + 1];
    GatheredConcat(kind, k, log[..i + 1], log[i + 1..last + 1]);
    assert log[i + 1..] == log[i + 1..last + 1] + log[last + 1..];
    GatheredConcat(kind, k, log[i + 1..last + 1], log[last + 1..]);
  }

  /** At one key: replay changes the object exactly when it drifts. */
  lemma PlainReplay(kind: Kind, c: Option<Item>, k: Key, log: seq<MetaNode>)
    requires Starts(kind, c) && Plain(kind, k, log)
    ensures ItemAfter(ItemAfter(c, k, log), k, log) == ItemAfter(c, k, log) <==> !Drifts(kind, c, k, log)
  {
    hide Zeroed, ErasesAt, Gathered, Merges, Whole;
    var f := ItemAfter(c, k, log);
    PlainRun(kind, c, k, log);
    if !kind.code.OfferType? {
      RunGathers(kind, c, k, log);
      RunGathers(kind, f, k, log);
      var g := Gathered(kind, k, log);
      assert StartFields(c) + g + g == StartFields(c) + g;
    } else if Zeroed(kind, k, log) {
      ZeroForgets(kind, c, f, k, log);
    } else {
      RunLeaves(kind, c, k, log);
      if f == c {
        SameLeaves(kind, c, k, log);
      } else if f == None {
        SurvivesFromAnything(kind, c, k, log);
        NothingWhole(kind);
      } else {
        OfferReplay(kind, c, k, log);
      }
    }
  }

  /** A run that leaves what was there does not drift. */
  lemma SameLeaves(kind: Kind, c: Option<Item>, k: Key, log: seq<MetaNode>)
    requires kind.code.OfferType? && Starts(kind, c) && Plain(kind, k, log) && !Zeroed(kind, k, log)
    requires ItemAfter(c, k, log) == c
    ensures !Drifts(kind, c, k, log)
  {
    hide Zeroed, ErasesAt, Whole;
    if c.Some? {
      if i: nat :| ErasesAt(c, k, log, i) {
        var last := LastErase(c, k, log, i);
        AfterLastErase(kind, c, k, log, last);
        SurvivesFromRest(kind, c, k, log, last);
        WholeIs(kind, c);
        WholeGathers(kind, c, k, log);
        ErasedReplay(kind, c, k, log, last);
      }
    }
  }

  lemma SurvivesFromRest(kind: Kind, c: Option<Item>, k: Key, log: seq<MetaNode>, last: nat)
    requires kind.code.OfferType? && last < |log| && Plain(kind, k, log[last + 1..])
    requires ItemAfter(c, k, log) == ItemAfter(None, k, log[last + 1..]) && ItemAfter(c, k, log).Some?
    ensures Whole(kind, ItemAfter(c, k, log))
  {
    hide Whole;
    RunLeaves(kind, None, k, log[last + 1..]);
  }

  // ---- Whole logs ----

  /** The log keeps to one kind of object at the key. */
  ghost predicate OneKind(c: Option<Item>, k: Key, log: seq<MetaNode>) {
    exists kind :: Starts(kind, c) && Plain(kind, k, log)
  }

  ghost predicate DriftsAt(c: Option<Item>, k: Key, log: seq<MetaNode>) {
    exists kind :: Starts(kind, c) && Plain(kind, k, log) && Drifts(kind, c, k, log)
  }

  lemma KeyReplay(c: Option<Item>, k: Key, log: seq<MetaNode>)
    requires OneKind(c, k, log)
    ensures ItemAfter(ItemAfter(c, k, log), k, log) == ItemAfter(c, k, log) <==> !DriftsAt(c, k, log)
  {
    hide Starts, Plain, Drifts;
    var kind :| Starts(kind, c) && Plain(kind, k, log);
    PlainReplay(kind, c, k, log);
    if other: Kind :| Starts(other, c) && Plain(other, k, log) && Drifts(other, c, k, log) {
      PlainReplay(other, c, k, log);
    }
  }

  /** Replaying a log that keeps to one kind of object at every key it does not
      delete changes its result if and only if it drifts at one of them. */
  lemma ReplayDriftsExactly(objects: map<Key, Item>, log: seq<MetaNode>)
    requires forall k: Key :: DeletesKey(k, log) || OneKind(ItemAt(objects, k), k, log)
    ensures ObjectsAfter(ObjectsAfter(objects, log), log) != ObjectsAfter(objects, log) <==>
            exists k: Key :: !DeletesKey(k, log) && DriftsAt(ItemAt(objects, k), k, log)
  {
    hide DeletesKey, OneKind, DriftsAt;
    var after := ObjectsAfter(objects, log);
    forall k: Key
      ensures ItemAt(ObjectsAfter(after, log), k) == ItemAt(after, k) <==>
              DeletesKey(k, log) || !DriftsAt(ItemAt(objects, k), k, log)
    {
      ItemsAreIndependent(objects, k, log);
      ItemsAreIndependent(after, k, log);
      if DeletesKey(k, log) {
        DeleteForgets(ItemAt(objects, k), ItemAt(after, k), k, log);
      } else {
        KeyReplay(ItemAt(objects, k), k, log);
      }
    }
    if forall k: Key :: ItemAt(ObjectsAfter(after, log), k) == ItemAt(after, k) {
      SameItems(ObjectsAfter(after, log), after);
    }
  }

  /** At every key the log deletes, or runs cleanly, or keeps to one kind of
      object and does not drift. */
  ghost predicate Replayable(objects: map<Key, Item>, log: seq<MetaNode>) {
    forall k: Key ::
      || DeletesKey(k, log) || CleanAt(ItemAt(objects, k), k, log)
      || (OneKind(ItemAt(objects, k), k, log) && !DriftsAt(ItemAt(objects, k), k, log))
  }

  /** Applying a log again to its own result changes nothing. */
  lemma ReplayIsIdempotent(objects: map<Key, Item>, log: seq<MetaNode>)
    requires Replayable(objects, log)
    ensures ObjectsAfter(ObjectsAfter(objects, log), log) == ObjectsAfter(objects, log)
  {
    hide DeletesKey, CleanAt, OneKind, DriftsAt;
    var after := ObjectsAfter(objects, log);
    forall k: Key
      ensures ItemAt(ObjectsAfter(after, log), k) == ItemAt(after, k)
    {
      ItemsAreIndependent(objects, k, log);
      ItemsAreIndependent(after, k, log);
      if DeletesKey(k, log) || CleanAt(ItemAt(objects, k), k, log) {
        ReplayItem(ItemAt(objects, k), k, log);
      } else {
        KeyReplay(ItemAt(objects, k), k, log);
      }
    }
    SameItems(ObjectsAfter(after, log), after);
  }

  /** Applying any suffix of a log again to the result of the whole log changes nothing. */
  lemma ReplayOfSuffix(objects: map<Key, Item>, a: seq<MetaNode>, b: seq<MetaNode>)
    requires Replayable(ObjectsAfter(objects, a), b)
    ensures ObjectsAfter(ObjectsAfter(objects, a + b), b) == ObjectsAfter(objects, a + b)
  {
    ObjectsAfterConcat(objects, a, b);
    ReplayIsIdempotent(ObjectsAfter(objects, a), b);
  }

  /** A log none of whose steps erases an incomplete offer or fails to start an
      object can be replayed from any point on. */
  lemma CleanIsReplayable(objects: map<Key, Item>, a: seq<MetaNode>, b: seq<MetaNode>)
    requires Clean(objects, a + b)
    ensures Replayable(ObjectsAfter(objects, a), b)
  {
    hide CleanStep;
    var start := ObjectsAfter(objects, a);
    forall k: Key
      ensures CleanAt(ItemAt(start, k), k, b)
    {
      forall i | 0 <= i < |b| && b[i].key == k
        ensures CleanStep(ItemAfter(ItemAt(start, k), k, b[..i]), b[i])
      {
        assert (a + b)[..|a| + i] == a + b[..i] && (a + b)[|a| + i] == b[i];
        ObjectsAfterConcat(objects, a, b[..i]);
        ItemsAreIndependent(start, k, b[..i]);
      }
    }
  }

  /** Replay can change the result: an offer erased for
      lack of fields the first time survives the second time, and keeps a field
      the first run never stored. */
  lemma ReplayCanDrift()
    ensures exists objects, log :: ObjectsAfter(ObjectsAfter(objects, log), log) != ObjectsAfter(objects, log)
  {
    var kind := Kind(OfferType, {TakerPays, TakerGets, BookDirectory, Account, OtherField(0)}, {});
    var partial := map[TakerPays := Num(1), OtherField(0) := Num(7)];
    var full := map[TakerPays := Num(1), TakerGets := Num(1), BookDirectory := Num(1), Account := Num(1)];
    var n := MetaNode(ModifiedNode, 0, Some(kind), Some(partial));
    var m := MetaNode(CreatedNode, 0, Some(kind), Some(full));
    DriftingPair(kind, partial, full, n, m);
    DriftingLog([n, m], 0);
  }

  lemma DriftingLog(log: seq<MetaNode>, k: Key)
    requires ItemAfter(ItemAfter(None, k, log), k, log) != ItemAfter(None, k, log)
    ensures exists objects, l :: ObjectsAfter(ObjectsAfter(objects, l), l) != ObjectsAfter(objects, l)
  {
    var objects: map<Key, Item> := map[];
    var after := ObjectsAfter(objects, log);
    ItemsAreIndependent(objects, k, log);
    ItemsAreIndependent(after, k, log);
    assert ItemAt(ObjectsAfter(after, log), k) != ItemAt(after, k);
    assert ObjectsAfter(ObjectsAfter(objects, log), log) != ObjectsAfter(objects, log);
  }

  lemma DriftingPair(kind: Kind, partial: map<Field, Value>, full: map<Field, Value>, n: MetaNode, m: MetaNode)
    requires kind.code.OfferType? && partial.Keys <= kind.template && full.Keys <= kind.template
    requires n == MetaNode(ModifiedNode, 0, Some(kind), Some(partial))
    requires m == MetaNode(CreatedNode, 0, Some(kind), Some(full))
    requires TakerGets !in partial && OtherField(0) in partial && OtherField(0) !in full
    requires partial.Keys <= full.Keys + {OtherField(0)}
    requires OfferComplete(Entry(kind, full)) && OfferComplete(Entry(kind, full + partial))
    ensures ItemAfter(ItemAfter(None, 0, [n, m]), 0, [n, m]) != ItemAfter(None, 0, [n, m])
  {
    PairAfter(None, n, m);
    assert map[] + partial == partial && map[] + full == full;
    assert !OfferComplete(Entry(kind, partial));
    var once := Some(Decoded(Entry(kind, full)));
    assert ItemAfter(None, 0, [n, m]) == once;
    PairAfter(once, n, m);
    var mixed := Entry(kind, full + partial);
    assert NextItem(once, n) == Some(Decoded(mixed));
    CompleteAgain(kind, full, partial);
    assert OtherField(0) in mixed.fields + full;
  }

  lemma CompleteAgain(kind: Kind, full: map<Field, Value>, partial: map<Field, Value>)
    requires kind.code.OfferType? && OfferComplete(Entry(kind, full))
    ensures OfferComplete(Entry(kind, full + partial + full))
  {
  }

  ghost predicate NeverIncomplete(objects: map<Key, Item>, log: seq<MetaNode>) {
    forall i :: 0 <= i < |log| ==> Outcome(ItemAt(ObjectsAfter(objects, log[..i]), log[i].key), log[i]) != Incomplete
  }

  /** Nor is it enough that no object is ever incomplete: a node that names no kind
      cannot start an object of its own, but merges into the one that is there on
      replay. Only a binary metadata blob can carry such a node; nodes of JSON
      metadata without a known type are skipped. */
  lemma UnstartedCanDrift()
    ensures exists objects, log ::
              NeverIncomplete(objects, log)
              && ObjectsAfter(ObjectsAfter(objects, log), log) != ObjectsAfter(objects, log)
  {
    var kind := Kind(OtherType(0), {OtherField(0), OtherField(1)}, {});
    var n := MetaNode(ModifiedNode, 0, None, Some(map[OtherField(0) := Num(7)]));
    var m := MetaNode(CreatedNode, 0, Some(kind), Some(map[OtherField(1) := Num(1)]));
    UnstartedPair(kind, n, m);
    var objects: map<Key, Item> := map[];
    var log := [n, m];
    ItemsAreIndependent(objects, 0, log);
    ItemsAreIndependent(ObjectsAfter(objects, log), 0, log);
    assert log[..0] == [] && log[..1] == [n];
    ItemsAreIndependent(objects, 0, [n]);
    ItemsAreIndependent(objects, 0, []);
    assert NeverIncomplete(objects, log);
  }

  lemma UnstartedPair(kind: Kind, n: MetaNode, m: MetaNode)
    requires kind == Kind(OtherType(0), {OtherField(0), OtherField(1)}, {})
    requires n == MetaNode(ModifiedNode, 0, None, Some(map[OtherField(0) := Num(7)]))
    requires m == MetaNode(CreatedNode, 0, Some(kind), Some(map[OtherField(1) := Num(1)]))
    ensures ItemAfter(None, 0, [n]) == None && ItemAfter(None, 0, []) == None
    ensures Outcome(None, n) == NoChange && Outcome(None, m) == Created
    ensures ItemAfter(ItemAfter(None, 0, [n, m]), 0, [n, m]) != ItemAfter(None, 0, [n, m])
  {
    PairAfter(None, n, m);
    assert [n][..0] == [];
    var once := Some(Decoded(Entry(kind, map[] + m.fields.value)));
    assert ItemAfter(None, 0, [n, m]) == once;
    PairAfter(once, n, m);
    var mixed := m.fields.value + n.fields.value;
    assert OtherField(0) in mixed + m.fields.value;
  }

  lemma PairAfter(c: Option<Item>, n: MetaNode, m: MetaNode)
    requires n.key == m.key
    ensures ItemAfter(c, n.key, [n, m]) == NextItem(NextItem(c, n), m)
  {
    assert [n][..0] == [];
    assert ItemAfter(c, n.key, [n]) == NextItem(c, n);
    assert [n, m][..1] == [n];
  }
}
