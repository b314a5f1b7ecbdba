// What one affected node does, stated on fields: which object it leaves at its
// key, under which verdict, and which books the tables hold afterwards.

module NodeEffects {
  import opened Prelude
  import opened LedgerObjects
  import opened BookTables
  import opened BookProofs
  import opened EntryBooks
  import opened MetaNodes

  /** m holds the fields of f, with those of g in their place. */
  ghost predicate Overlaid(f: map<Field, Value>, g: map<Field, Value>, m: map<Field, Value>) {
    forall x :: (x in m <==> x in f || x in g) && (x in m ==> m[x] == if x in g then g[x] else f[x])
  }

  predicate NonZero(m: map<Field, Value>, x: Field) {
    x in m && m[x].Num? && m[x].n != 0
  }

  /** An offer needs its two amounts, neither of them zero, its directory and its
      owner; a pool its two assets and a balance; any other object nothing. */
  predicate Stands(code: EntryCode, m: map<Field, Value>) {
    && (code == OfferType ==>
          NonZero(m, TakerPays) && NonZero(m, TakerGets) && BookDirectory in m && Account in m)
    && (code == AmmType ==> PoolAsset in m && PoolAsset2 in m && NonZero(m, LPTokenBalance))
  }

  /** What is at the key before: an object, or nothing that decodes, and then the
      node's own type and no fields. */
  predicate StartsFrom(c: Option<Item>, n: MetaNode, kind: Kind, f: map<Field, Value>) {
    match c
    case Some(Decoded(e)) => e == Entry(kind, f)
    case _ => n.entryType == Some(kind) && f == map[]
  }

  /** A created or modified node whose fields the kind admits: its fields replace
      those of the object, which is stored, unless it is an offer that does not
      stand; its books are listed exactly if it stands. */
  lemma NodeStores(t: Tables, c: Option<Item>, n: MetaNode, kind: Kind, f: map<Field, Value>, m: map<Field, Value>)
    requires !n.change.DeletedNode? && n.fields.Some? && n.fields.value.Keys <= kind.template
    requires StartsFrom(c, n, kind, f) && Overlaid(f, n.fields.value, m)
    ensures NextItem(c, n) == if kind.code.OfferType? && !Stands(kind.code, m) then None
                              else Some(Decoded(Entry(kind, m)))
    ensures Outcome(c, n) == if !Stands(kind.code, m) then Incomplete
                             else if n.change == CreatedNode then Created else Modified
    ensures Coherent(t) ==>
              forall b :: HasExactBook(NextTables(t, c, n), b) <==>
                if Stands(kind.code, m) then HasExactBook(t, b) || Lists(n.key, Entry(kind, m), false, b)
                else HasExactBook(t, b) && !(Removable(n.key, Entry(kind, m)) && Lists(n.key, Entry(kind, m), true, b))
  {
    hide AddFromSle, RemoveFromSle, HasExactBook, Lists, Removable, Coherent;
    var e := Entry(kind, m);
    MergesTo(c, n, kind, f, m);
    StandsMeans(e);
    EntryAdds(t, n.key, e);
    EntryRemoves(t, n.key, e);
    if Coherent(t) {
      RemoveEntryExact(t, n.key, e, PoolBook(e));
    }
  }

  lemma MergesTo(c: Option<Item>, n: MetaNode, kind: Kind, f: map<Field, Value>, m: map<Field, Value>)
    requires n.fields.Some? && n.fields.value.Keys <= kind.template
    requires StartsFrom(c, n, kind, f) && Overlaid(f, n.fields.value, m)
    ensures MergedEntry(c, n) == Some(Entry(kind, m))
  {
    assert f + n.fields.value == m;
  }

  lemma StandsMeans(e: Entry)
    ensures OfferComplete(e) <==> Stands(e.kind.code, e.fields)
  {
  }

  /** Nothing changes for a node without fields, with a field its kind does not
      admit, or with neither an object nor a type to start from. */
  lemma NodeIdles(t: Tables, c: Option<Item>, n: MetaNode)
    requires !n.change.DeletedNode?
    ensures NextItem(c, n) == c && NextTables(t, c, n) == t && Outcome(c, n) == NoChange <==>
            || n.fields.None?
            || (forall kind, f :: StartsFrom(c, n, kind, f) ==> !(n.fields.value.Keys <= kind.template))
  {
    if n.fields.Some? && MergedEntry(c, n).Some? {
      var kind := MergedEntry(c, n).value.kind;
      assert StartsFrom(c, n, kind, if Cloned(c).Some? then Cloned(c).value.fields else map[]);
    }
  }

  /** A deletion leaves nothing at the key and unlists the books of the object that
      was there, or else of the one the node itself describes in full. */
  lemma NodeDeletes(t: Tables, c: Option<Item>, n: MetaNode, e: Entry, b: Book)
    requires n.change.DeletedNode? && Coherent(t)
    ensures NextItem(c, n) == None && Outcome(c, n) == Deleted
    ensures (if c.Some? && c.value.Decoded? then e == c.value.entry
             else && n.entryType == Some(e.kind) && n.fields == Some(e.fields)
                  && e.kind.required <= e.fields.Keys <= e.kind.template) ==>
              (HasExactBook(NextTables(t, c, n), b) <==>
               HasExactBook(t, b) && !(Removable(n.key, e) && Lists(n.key, e, true, b)))
    ensures !(c.Some? && c.value.Decoded?) && (n.fields.None? || n.entryType.None?) ==> NextTables(t, c, n) == t
    ensures !(c.Some? && c.value.Decoded?) && n.fields.Some? && n.entryType.Some?
            && !(n.entryType.value.required <= n.fields.value.Keys <= n.entryType.value.template) ==>
              NextTables(t, c, n) == t
  {
    hide RemoveFromSle, HasExactBook, Lists, Removable, Coherent;
    RemoveEntryExact(t, n.key, e, b);
  }
}
