// MemoryLedger and LedgerBuilder: a frozen base under a copy-on-write overlay
// with tombstones, shared by reference with every published view.

module LedgerStore {
  import opened Prelude
  import opened LedgerObjects

  ghost predicate Ascending(s: seq<Key>) {
    forall i, j :: 0 <= i < j < |s| ==> s[i] < s[j]
  }

  /** std::upper_bound over ascending keys. */
  method UpperBound(s: seq<Key>, k: Key) returns (i: nat)
    requires Ascending(s)
    ensures i <= |s|
    ensures forall j :: 0 <= j < i ==> s[j] <= k
    ensures forall j :: i <= j < |s| ==> k < s[j]
  {
    i := 0;
    while i < |s| && s[i] <= k
      invariant i <= |s|
      invariant forall j :: 0 <= j < i ==> s[j] <= k
    {
      i := i + 1;
    }
  }

  /** Places k among ascending keys, keeping them ascending. */
  method PlaceKey(s: seq<Key>, k: Key) returns (r: seq<Key>)
    requires Ascending(s)
    requires k !in s
    ensures Ascending(r)
    ensures forall x :: x in r <==> x in s || x == k
  {
    var i := UpperBound(s, k);
    r := s[..i] + [k] + s[i..];
    assert s == s[..i] + s[i..];
    assert forall j :: 0 <= j < i ==> s[j] != k;
  }

  /** An overlay over a base stands for one finite map of live objects. */
  ghost predicate Means<V(!new)>(items: map<Key, V>, cells: map<Key, Option<V>>, model: map<Key, V>) {
    && (forall k :: k in model <==> if k in cells then cells[k].Some? else k in items)
    && (forall k :: k in model ==> model[k] == if k in cells then cells[k].value else items[k])
  }

  lemma MeansOneMap<V(!new)>(items: map<Key, V>, cells: map<Key, Option<V>>, a: map<Key, V>, b: map<Key, V>)
    requires Means(items, cells, a) && Means(items, cells, b)
    ensures a == b
  {
    assert forall k :: k in a <==> k in b;
    assert forall k :: k in a ==> a[k] == b[k];
  }

  class Base<V(!new)> {
    var items: map<Key, V>
    var keys: seq<Key>

    constructor ()
      ensures items == map[] && keys == []
    {
      items, keys := map[], [];
    }

    ghost predicate Frozen()
      reads this
    {
      Ascending(keys) && forall k :: k in keys <==> k in items
    }
  }

  /** std::map<Key, optional<V>>; a None cell is a tombstone. */
  class Overlay<V(!new)> {
    var cells: map<Key, Option<V>>
    /** The order in which the map iterates. */
    var order: seq<Key>
    /** shared_ptr owners of this object. */
    var useCount: nat

    ghost predicate Valid()
      reads this
    {
      Ascending(order) && forall k :: k in order <==> k in cells
    }

    constructor ()
      ensures Valid() && cells == map[] && useCount == 1
    {
      cells, order, useCount := map[], [], 1;
    }

    constructor CopyOf(other: Overlay<V>)
      requires other.Valid()
      ensures Valid() && cells == other.cells && useCount == 1
    {
      cells, order, useCount := other.cells, other.order, 1;
    }

    method Assign(key: Key, cell: Option<V>)
      requires Valid()
      modifies this`cells, this`order
      ensures Valid() && cells == old(cells)[key := cell]
    {
      if key !in cells {
        order := PlaceKey(order, key);
      }
      cells := cells[key := cell];
    }
  }

  datatype Header = Header(index: nat, hash: nat, parentHash: nat)

  function WithCell<V(!new)>(m: map<Key, V>, k: Key, cell: Option<V>): map<Key, V> {
    if cell.Some? then m[k := cell.value] else m - {k}
  }

  lemma MeansStep<V(!new)>(items: map<Key, V>, cells: map<Key, Option<V>>, m: map<Key, V>, k: Key, cell: Option<V>)
    requires Means(items, cells, m)
    ensures Means(items, cells[k := cell], WithCell(m, k, cell))
    ensures k !in cells ==> (k in m <==> k in items)
  {
  }

  /** Whether iteration over `order` has gone past key x before index i. */
  predicate Passed(order: seq<Key>, i: nat, x: Key)
    requires i <= |order|
  {
    i == |order| || x < order[i]
  }

  /** The live keys once the overlay cells before index i are accounted for. */
  ghost predicate LiveUpto<V(!new)>(base: set<Key>, cells: map<Key, Option<V>>, order: seq<Key>, i: nat, live: set<Key>)
    requires i <= |order|
  {
    forall x :: x in live <==> if x in cells && Passed(order, i, x) then cells[x].Some? else x in base
  }

  lemma PassedStep(order: seq<Key>, i: nat, x: Key)
    requires Ascending(order) && i < |order| && x in order
    ensures Passed(order, i + 1, x) <==> Passed(order, i, x) || x == order[i]
  {
  }

  lemma LiveUptoStep<V(!new)>(base: set<Key>, cells: map<Key, Option<V>>, order: seq<Key>, i: nat, live: set<Key>)
    requires Ascending(order) && forall k :: k in order <==> k in cells
    requires i < |order| && LiveUpto(base, cells, order, i, live)
    ensures order[i] in cells
    ensures order[i] in live <==> order[i] in base
    ensures LiveUpto(base, cells, order, i + 1, if cells[order[i]].Some? then live + {order[i]} else live - {order[i]})
  {
    assert order[i] in order;
    var next := if cells[order[i]].Some? then live + {order[i]} else live - {order[i]};
    forall x
      ensures x in next <==> if x in cells && Passed(order, i + 1, x) then cells[x].Some? else x in base
    {
      if x in cells {
        PassedStep(order, i, x);
      }
    }
  }

  lemma LiveUptoAll<V(!new)>(items: map<Key, V>, cells: map<Key, Option<V>>, order: seq<Key>, live: set<Key>,
                             model: map<Key, V>)
    requires Ascending(order) && Means(items, cells, model)
    requires LiveUpto(items.Keys, cells, order, |order|, live)
    ensures live == model.Keys
  {
  }

  lemma LiveUptoNone<V(!new)>(base: set<Key>, cells: map<Key, Option<V>>, order: seq<Key>)
    requires Ascending(order) && forall k :: k in order <==> k in cells
    ensures LiveUpto(base, cells, order, 0, base)
  {
    forall x | x in cells
      ensures !Passed(order, 0, x)
    {
      assert x in order;
    }
  }

  /** Live objects: both size() functions walk the overlay against the base. */
  method LiveCount<V(!new)>(base: Base<V>, overlay: Overlay<V>, ghost model: map<Key, V>) returns (n: nat)
    requires overlay.Valid()
    requires Means(base.items, overlay.cells, model)
    ensures n == |model.Keys|
  {
    hide LiveUpto, Means;
    var keys, cells, order := base.items.Keys, overlay.cells, overlay.order;
    n := |keys|;
    ghost var live := keys;
    LiveUptoNone(keys, cells, order);
    for i := 0 to |order|
      invariant LiveUpto(keys, cells, order, i, live)
      invariant n == |live|
    {
      LiveUptoStep(keys, cells, order, i, live);
      var k := order[i];
      if cells[k].Some? {
        if k !in keys { n := n + 1; }
        live := live + {k};
      } else {
        if k in keys { n := n - 1; }
        live := live - {k};
      }
    }
    LiveUptoAll(base.items, cells, order, live, model);
  }

  /** An immutable published view. */
  class MemoryLedger<V(!new)> {
    const header: Header
    const base: Base<V>
    const overlay: Overlay<V>
    const open: bool
    /** The base and overlay contents at the time of publishing, and the
        objects they stand for. */
    ghost const items: map<Key, V>
    ghost const keys: seq<Key>
    ghost const cells: map<Key, Option<V>>
    ghost const order: seq<Key>
    ghost const model: map<Key, V>

    constructor (header: Header, base: Base<V>, overlay: Overlay<V>, open: bool, ghost model: map<Key, V>)
      ensures this.header == header && this.base == base && this.overlay == overlay && this.open == open
      requires base.Frozen() && overlay.Valid() && Means(base.items, overlay.cells, model)
      ensures this.model == model && Valid()
    {
      this.header, this.base, this.overlay, this.open := header, base, overlay, open;
      items, keys, cells, order := base.items, base.keys, overlay.cells, overlay.order;
      this.model := model;
    }

    ghost predicate Consistent() {
      && Ascending(keys) && (forall k :: k in keys <==> k in items)
      && Ascending(order) && (forall k :: k in order <==> k in cells)
      && Means(items, cells, model)
    }

    /** The shared objects still hold what they held when this was published. */
    ghost predicate Valid()
      reads base, overlay
    {
      && base.items == items && base.keys == keys
      && overlay.cells == cells && overlay.order == order
      && Consistent()
    }

    method FindItem(key: Key) returns (r: Option<V>)
      requires Valid()
      ensures r == if key in model then Some(model[key]) else None
    {
      if key in overlay.cells {
        return overlay.cells[key];
      }
      if key in base.items {
        return Some(base.items[key]);
      }
      return None;
    }

    /** The least live key above `key` and below `last`, by merging two cursors. */
    method Succ(key: Key, last: Option<Key>) returns (r: Option<Key>)
      requires Valid()
      ensures r.Some? ==>
                && r.value in model && key < r.value
                && (last.Some? ==> r.value < last.value)
                && forall k :: k in model && key < k ==> r.value <= k
      ensures r.None? ==> forall k :: k in model && key < k ==> last.Some? && last.value <= k
    {
      var b := UpperBound(base.keys, key);
      var o := UpperBound(overlay.order, key);
      // Everything up to `floor` is behind both cursors, and nothing live in it is above `key`.
      ghost var floor := key;
      while true
        invariant 0 <= b <= |base.keys| && 0 <= o <= |overlay.order|
        invariant key <= floor
        invariant forall j :: 0 <= j < |base.keys| ==> (base.keys[j] <= floor <==> j < b)
        invariant forall j :: 0 <= j < |overlay.order| ==> (overlay.order[j] <= floor <==> j < o)
        invariant forall k :: k in model && key < k ==> floor < k
        decreases |base.keys| - b + |overlay.order| - o
      {
        var haveB, haveO := b < |base.keys|, o < |overlay.order|;
        if !haveB && !haveO {
          return None;
        }
        var fromOverlay := haveO && (!haveB || overlay.order[o] <= base.keys[b]);
        var cand := if fromOverlay then overlay.order[o] else base.keys[b];
        LeastAhead(b, o, floor, cand);
        if last.Some? && last.value <= cand {
          return None;
        }
        if !fromOverlay {
          return Some(cand);
        }
        var present := overlay.cells[cand].Some?;
        if haveB && base.keys[b] == cand {
          b := b + 1;
        }
        o := o + 1;
        if present {
          return Some(cand);
        }
        floor := cand;
      }
    }

    /** The smaller cursor head is a lower bound for what is still live. */
    lemma LeastAhead(b: nat, o: nat, floor: Key, cand: Key)
      requires Valid()
      requires b <= |base.keys| && o <= |overlay.order|
      requires forall j :: 0 <= j < |base.keys| ==> (base.keys[j] <= floor <==> j < b)
      requires forall j :: 0 <= j < |overlay.order| ==> (overlay.order[j] <= floor <==> j < o)
      requires b < |base.keys| ==> cand <= base.keys[b]
      requires o < |overlay.order| ==> cand <= overlay.order[o]
      ensures forall k :: k in model && floor < k ==> cand <= k
      ensures b < |base.keys| && cand == base.keys[b] && (o < |overlay.order| ==> cand < overlay.order[o]) ==>
                cand in model
      ensures o < |overlay.order| && cand == overlay.order[o] ==> (cand in model <==> overlay.cells[cand].Some?)
    {
      forall k | k in model && floor < k
        ensures cand <= k
      {
        assert k in overlay.order || k in base.keys;
      }
      if b < |base.keys| && cand == base.keys[b] && (o < |overlay.order| ==> cand < overlay.order[o]) {
        assert base.keys[b] in base.items;
        assert cand !in overlay.order;
      }
      if o < |overlay.order| {
        assert overlay.order[o] in overlay.cells;
      }
    }

    method FirstKey() returns (r: Option<Key>)
      requires Valid()
      ensures r.Some? ==> r.value in model && forall k :: k in model ==> r.value <= k
      ensures r.None? ==> model == map[]
    {
      var zero := FindItem(0);
      if zero.Some? {
        return Some(0);
      }
      r := Succ(0, None);
    }

    method Size() returns (n: nat)
      requires Valid()
      ensures n == |model.Keys|
    {
      n := LiveCount(base, overlay, model);
    }

    method SlesBegin() returns (it: SlesIter<V>)
      requires Valid()
      ensures fresh(it) && it.view == this
      ensures it.end <==> model == map[]
      ensures !it.end ==> it.current.Some? && it.current.value in model
      ensures !it.end ==> forall k :: k in model ==> it.current.value <= k
    {
      var first := FirstKey();
      it := new SlesIter<V>(this, first, first.None?);
    }

    method SlesEnd() returns (it: SlesIter<V>)
      ensures fresh(it) && it.view == this && it.end && it.current == None
    {
      it := new SlesIter<V>(this, None, true);
    }

    /** A range-for over sles meets every live key once, in ascending order. */
    method WalkSles() returns (visited: seq<Key>)
      requires Valid()
      ensures Ascending(visited)
      ensures forall k :: k in visited <==> k in model
    {
      hide Consistent;
      visited := [];
      var it := SlesBegin();
      var end := SlesEnd();
      var done := it.Equal(end);
      while !done
        invariant Valid()
        invariant it.view == this && fresh(it) && fresh(end) && it != end
        invariant end.end
        invariant done <==> it.end
        invariant !it.end ==> it.current.Some? && it.current.value in model
        invariant Ascending(visited)
        invariant forall k :: k in visited <==> k in model && (it.end || k < it.current.value)
        decreases model.Keys - set k | k in visited
      {
        var at := it.current.value;
        forall i | 0 <= i < |visited|
          ensures visited[i] < at
        {
          assert visited[i] in visited;
        }
        it.Increment();
        assert at in model.Keys - set k | k in visited;
        visited := visited + [at];
        done := it.Equal(end);
      }
    }
  }

  class SlesIter<V(!new)> {
    const view: MemoryLedger<V>
    var current: Option<Key>
    var end: bool

    constructor (view: MemoryLedger<V>, current: Option<Key>, end: bool)
      ensures this.view == view && this.current == current && this.end == end
    {
      this.view, this.current, this.end := view, current, end;
    }

    method Equal(other: SlesIter<V>) returns (r: bool)
      ensures r <==> if end || other.end then end && other.end else current == other.current
    {
      if end || other.end {
        return end && other.end;
      }
      return current == other.current;
    }

    method Increment()
      requires view.Valid()
      modifies this
      ensures old(end || current.None?) ==> end && current == None
      ensures !old(end || current.None?) ==>
                && (end <==> current.None?)
                && (current.None? ==> forall k :: k in view.model ==> k <= old(current.value))
                && (current.Some? ==>
                      && current.value in view.model && old(current.value) < current.value
                      && forall k :: k in view.model && old(current.value) < k ==> current.value <= k)
    {
      if end || current.None? {
        end, current := true, None;
        return;
      }
      current := view.Succ(current.value, None);
      if current.None? {
        end := true;
      }
    }
  }

  /** The views that share ownership of an overlay. */
  ghost function HoldersIn<V(!new)>(views: set<MemoryLedger<V>>, o: Overlay<V>): set<MemoryLedger<V>> {
    set v | v in views && v.overlay == o
  }

  lemma HolderAdded<V(!new)>(view: MemoryLedger<V>, views: set<MemoryLedger<V>>, o: Overlay<V>)
    requires view !in views
    ensures |HoldersIn(views + {view}, o)| == |HoldersIn(views, o)| + if view.overlay == o then 1 else 0
  {
    if view.overlay == o {
      assert HoldersIn(views + {view}, o) == HoldersIn(views, o) + {view};
    } else {
      assert HoldersIn(views + {view}, o) == HoldersIn(views, o);
    }
  }

  class LedgerBuilder<V(!new)> {
    var header: Header
    var base: Base<V>
    var overlay: Overlay<V>
    var frozen: bool
    var open: bool
    /** The live objects. */
    ghost var model: map<Key, V>
    /** Every view still held by someone. */
    ghost var published: set<MemoryLedger<V>>
    /** The bases and overlays those views refer to. */
    ghost var shared: set<object>

    ghost function Repr(): set<object>
      reads this
    {
      {this, base, overlay}
    }

    /** Every view still means the map it was published with, and the owners
        of an overlay are counted exactly. */
    ghost predicate ViewsIntact()
      reads this, overlay, shared
    {
      && overlay.useCount == 1 + |HoldersIn(published, overlay)|
      && forall v | v in published ::
           && v.base in shared && v.overlay in shared
           && v.Valid()
           && (v.overlay != overlay ==> v.overlay.useCount == |HoldersIn(published, v.overlay)|)
    }

    ghost predicate Valid()
      reads this, base, overlay, shared
    {
      && overlay.Valid()
      && Means(base.items, overlay.cells, model)
      && (frozen ==> base.Frozen())
      && (!frozen ==> overlay.cells == map[] && base !in shared)
      && ViewsIntact()
    }

    constructor ()
      ensures Valid() && fresh(Repr()) && model == map[] && published == {} && shared == {}
      ensures header == Header(0, 0, 0)
      ensures !open && !frozen
    {
      header := Header(0, 0, 0);
      base := new Base<V>();
      overlay := new Overlay<V>();
      frozen, open := false, false;
      model, published, shared := map[], {}, {};
    }

    method SetHeader(h: Header)
      requires Valid()
      modifies this`header
      ensures Valid() && header == h
    {
      header := h;
    }

    method SetOpen(o: bool)
      requires Valid()
      modifies this`open
      ensures Valid() && open == o
    {
      open := o;
    }

    /** Afterwards the overlay has one owner; what the views see is untouched. */
    method CowOverlay()
      requires Valid() && frozen
      modifies this`overlay, overlay`useCount
      ensures Valid()
      ensures forall v | v in published :: v.overlay != overlay
      ensures overlay.cells == old(overlay.cells)
      ensures overlay == old(overlay) || fresh(overlay)
    {
      if overlay.useCount == 1 {
        forall v | v in published
          ensures v.overlay != overlay
        {
          assert v !in HoldersIn(published, overlay);
        }
      } else {
        var copy := new Overlay<V>.CopyOf(overlay);
        overlay.useCount := overlay.useCount - 1;
        overlay := copy;
        assert HoldersIn(published, copy) == {};
      }
    }

    method AssignCell(key: Key, cell: Option<V>)
      requires Valid() && frozen
      modifies this`overlay, this`model, overlay
      ensures Valid() && fresh(Repr() - old(Repr()))
      ensures model == WithCell(old(model), key, cell)
    {
      hide HoldersIn, Means, WithCell;
      CowOverlay();
      MeansStep(base.items, overlay.cells, model, key, cell);
      overlay.Assign(key, cell);
      model := WithCell(model, key, cell);
    }

    method Put(key: Key, item: V)
      requires Valid()
      modifies this`overlay, this`model, base`items, overlay
      ensures Valid() && fresh(Repr() - old(Repr()))
      ensures model == old(model)[key := item]
    {
      if !frozen {
        base.items := base.items[key := item];
        model := model[key := item];
        return;
      }
      AssignCell(key, Some(item));
    }

    method Erase(key: Key)
      requires Valid()
      modifies this`overlay, this`model, base`items, overlay
      ensures Valid() && fresh(Repr() - old(Repr()))
      ensures model == old(model) - {key}
    {
      if !frozen {
        base.items := base.items - {key};
        model := model - {key};
        return;
      }
      AssignCell(key, None);
    }

    method Clear()
      requires Valid()
      modifies this`base, this`overlay, this`frozen, this`open, this`model, overlay`useCount
      ensures Valid() && fresh(Repr() - {this}) && model == map[]
      ensures !frozen && !open
    {
      var freshBase := new Base<V>();
      var freshOverlay := new Overlay<V>();
      StartOver(freshBase, freshOverlay);
      open := false;
    }

    /** Gives up the current base and overlay for two empty, unshared ones. */
    method StartOver(freshBase: Base<V>, freshOverlay: Overlay<V>)
      requires Valid()
      requires freshBase != base && freshOverlay != overlay && freshBase !in shared && freshOverlay !in shared
      requires freshBase.items == map[] && freshOverlay.cells == map[] && freshOverlay.Valid()
               && freshOverlay.useCount == 1
      modifies this`base, this`overlay, this`frozen, this`model, overlay`useCount
      ensures Valid() && base == freshBase && overlay == freshOverlay && model == map[]
      ensures !frozen
    {
      assert HoldersIn(published, freshOverlay) == {};
      overlay.useCount := overlay.useCount - 1;
      base, overlay, frozen, model := freshBase, freshOverlay, false, map[];
    }

    method Contains(key: Key) returns (r: bool)
      requires Valid()
      ensures r <==> key in model
    {
      if key in overlay.cells {
        return overlay.cells[key].Some?;
      }
      return key in base.items;
    }

    /** A copy of the current object; None if missing or deleted. */
    method Clone(key: Key) returns (r: Option<V>)
      requires Valid()
      ensures r == if key in model then Some(model[key]) else None
    {
      if key in overlay.cells {
        return overlay.cells[key];
      }
      if key in base.items {
        return Some(base.items[key]);
      }
      return None;
    }

    method Size() returns (n: nat)
      requires Valid()
      ensures n == |model.Keys|
    {
      n := LiveCount(base, overlay, model);
    }

    method FreezeBase()
      requires Valid()
      modifies this`frozen, base`keys
      ensures Valid() && frozen
    {
      if frozen {
        return;
      }
      var keys: seq<Key> := [];
      var rest := base.items.Keys;
      while rest != {}
        invariant rest <= base.items.Keys
        invariant Ascending(keys)
        invariant forall k :: k in keys <==> k in base.items.Keys - rest
        decreases rest
      {
        var k :| k in rest;
        keys := PlaceKey(keys, k);
        rest := rest - {k};
      }
      base.keys := keys;
      frozen := true;
    }

    /** Shares base and overlay with a new immutable view. */
    method Publish() returns (view: MemoryLedger<V>)
      requires Valid()
      modifies this`frozen, this`published, this`shared, base`keys, overlay`useCount
      ensures Valid() && frozen
      ensures fresh(view) && published == old(published) + {view} && shared == old(shared) + {base, overlay}
      ensures view.header == header && view.open == open && view.model == model
      ensures view.Valid()
    {
      FreezeBase();
      view := new MemoryLedger<V>(header, base, overlay, open, model);
      ShareWith(view);
    }

    /** The view becomes one more owner of the overlay. */
    method ShareWith(view: MemoryLedger<V>)
      requires Valid() && frozen && view !in published
      requires view.base == base && view.overlay == overlay && view.Valid()
      modifies this`published, this`shared, overlay`useCount
      ensures Valid() && view.Valid()
      ensures published == old(published) + {view} && shared == old(shared) + {base, overlay}
    {
      forall o: Overlay<V>
        ensures |HoldersIn(published + {view}, o)| == |HoldersIn(published, o)| + if overlay == o then 1 else 0
      {
        HolderAdded(view, published, o);
      }
      overlay.useCount := overlay.useCount + 1;
      published := published + {view};
      shared := shared + {base, overlay};
    }

    /** The last reference to a published view is dropped. */
    method Release(view: MemoryLedger<V>)
      requires Valid() && view in published
      modifies this`published, view.overlay`useCount
      ensures Valid()
      ensures published == old(published) - {view}
    {
      forall o: Overlay<V>
        ensures |HoldersIn(published, o)| == |HoldersIn(published - {view}, o)| + if view.overlay == o then 1 else 0
      {
        HolderAdded(view, published - {view}, o);
        assert published - {view} + {view} == published;
      }
      assert view in HoldersIn(published, view.overlay);
      hide HoldersIn;
      view.overlay.useCount := view.overlay.useCount - 1;
      published := published - {view};
    }
  }
}
