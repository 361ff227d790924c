/**
 The repair loop on references: the caller's value is cloned together with its sharing, the clone is
 edited in place at the reported paths, and no cell that existed before the call is written.
 */
module RepairInPlace {
  import opened Common
  import opened TypeConversion

  /** A value in memory: a primitive, or a reference to an array or object. */
  datatype Slot = Primitive(v: Json) | Ref(id: nat)

  datatype Cell = ArrCell(slots: seq<Slot>) | ObjCell(keys: seq<string>, slots: seq<Slot>)

  type Heap = seq<Cell>

  // ---------------------------------------------------------------- values and their children

  predicate IsContainer(v: Json) { v.JArr? || v.JObj? }

  function Count(v: Json): nat { match v case JArr(items) => |items| case JObj(entries) => |entries| case _ => 0 }

  function Child(v: Json, k: nat): (r: Json)
    requires k < Count(v)
    ensures r < v
  {
    match v case JArr(items) => items[k] case JObj(entries) => entries[k].1
  }

  function KeysOf(entries: seq<(string, Json)>): seq<string> {
    seq(|entries|, i requires 0 <= i < |entries| => entries[i].0)
  }

  function CellOf(v: Json, slots: seq<Slot>): Cell
    requires IsContainer(v)
  {
    if v.JArr? then ArrCell(slots) else ObjCell(KeysOf(v.entries), slots)
  }

  /** The value with child `k` exchanged. */
  function WithChild(v: Json, k: nat, w: Json): Json
    requires k < Count(v)
  {
    match v case JArr(items) => JArr(items[k := w]) case JObj(entries) => JObj(entries[k := (entries[k].0, w)])
  }

  lemma WithChildIs(v: Json, k: nat, w: Json)
    requires k < Count(v)
    ensures
      var u := WithChild(v, k, w);
      IsContainer(u) && Count(u) == Count(v) && Child(u, k) == w &&
      (forall j: nat :: j < Count(v) && j != k ==> Child(u, j) == Child(v, j)) &&
      forall slots: seq<Slot> :: CellOf(u, slots) == CellOf(v, slots)
  {
    if v.JObj? { assert KeysOf(WithChild(v, k, w).entries) == KeysOf(v.entries); }
  }

  /** The value with other children. */
  function Rebuilt(v: Json, children: seq<Json>): (r: Json)
    requires IsContainer(v) && |children| == Count(v)
    ensures IsContainer(r) && Count(r) == Count(v) && forall k: nat :: k < Count(v) ==> Child(r, k) == children[k]
    ensures forall slots: seq<Slot> :: CellOf(r, slots) == CellOf(v, slots)
  {
    if v.JArr? then JArr(children)
    else
      var entries := seq(|children|, i requires 0 <= i < |children| => (v.entries[i].0, children[i]));
      assert KeysOf(entries) == KeysOf(v.entries);
      JObj(entries)
  }

  // ---------------------------------------------------------------- values that may share cells

  /** The slot stands for the value; one cell may be reached in many ways, but not from itself. */
  ghost predicate Stands(h: Heap, s: Slot, v: Json)
    decreases v
  {
    if !IsContainer(v) then s == Primitive(v)
    else
      s.Ref? && s.id < |h| && |h[s.id].slots| == Count(v) && h[s.id] == CellOf(v, h[s.id].slots) &&
      forall k: nat :: k < Count(v) ==> Stands(h, h[s.id].slots[k], Child(v, k))
  }

  lemma {:induction false} StandsLater(a: Heap, b: Heap, s: Slot, v: Json)
    requires a <= b && Stands(a, s, v)
    ensures Stands(b, s, v)
    decreases v
  {
    if IsContainer(v) {
      assert b[s.id] == a[s.id];
      forall k: nat | k < Count(v) ensures Stands(b, b[s.id].slots[k], Child(v, k)) {
        StandsLater(a, b, a[s.id].slots[k], Child(v, k));
      }
    }
  }

  lemma {:induction false} StandsUnique(h: Heap, s: Slot, v: Json, w: Json)
    requires Stands(h, s, v) && Stands(h, s, w)
    ensures v == w
    decreases v
  {
    if IsContainer(v) && IsContainer(w) {
      var slots := h[s.id].slots;
      forall k: nat | k < Count(v) ensures Child(v, k) == Child(w, k) {
        StandsUnique(h, slots[k], Child(v, k), Child(w, k));
      }
      SameChildren(v, w, slots);
    }
  }

  lemma SameChildren(v: Json, w: Json, slots: seq<Slot>)
    requires IsContainer(v) && IsContainer(w) && CellOf(v, slots) == CellOf(w, slots) && Count(v) == Count(w)
    requires forall k: nat :: k < Count(v) ==> Child(v, k) == Child(w, k)
    ensures v == w
  {
    if v.JArr? {
      assert forall k: nat :: k < Count(v) ==> v.items[k] == Child(v, k) == Child(w, k) == w.items[k];
      assert v.items == w.items;
    } else {
      forall k: nat | k < Count(v) ensures v.entries[k] == w.entries[k] {
        assert KeysOf(v.entries)[k] == KeysOf(w.entries)[k] && Child(v, k) == Child(w, k);
      }
      assert v.entries == w.entries;
    }
  }

  /** The value behind `s` when slot `k` of cell `c` is given the value `w`, wherever that cell is reached. */
  ghost function Edited(h: Heap, s: Slot, v: Json, c: nat, k: nat, w: Json): Json
    requires Stands(h, s, v)
    decreases v
  {
    if !IsContainer(v) then v
    else
      Rebuilt(v, seq(Count(v), j requires 0 <= j < Count(v) =>
        if s.id == c && j == k then w else Edited(h, h[s.id].slots[j], Child(v, j), c, k, w)))
  }

  lemma {:induction false} EditedStands(a: Heap, b: Heap, s: Slot, v: Json, c: nat, k: nat, ns: Slot, w: Json)
    requires Stands(a, s, v) && c < |a| && k < |a[c].slots| && b == a[c := WithSlot(a[c], k, ns)] && Stands(b, ns, w)
    ensures Stands(b, s, Edited(a, s, v, c, k, w))
    decreases v
  {
    if IsContainer(v) {
      var u := Edited(a, s, v, c, k, w);
      var slots, news := a[s.id].slots, b[s.id].slots;
      forall j: nat | j < Count(v) ensures Stands(b, news[j], Child(u, j)) {
        if s.id != c || j != k { EditedStands(a, b, slots[j], Child(v, j), c, k, ns, w); }
      }
      assert CellOf(u, news) == CellOf(v, news);
    }
  }

  /** The cells from `base` on refer only to one another. */
  ghost predicate Own(h: Heap, base: nat) {
    base <= |h| && forall i :: base <= i < |h| ==> OwnSlots(h[i].slots, base)
  }

  ghost predicate OwnSlots(slots: seq<Slot>, base: nat) { forall s :: s in slots && s.Ref? ==> base <= s.id }

  // ---------------------------------------------------------------- values that share no cell

  /** The slot stands for the value and owns exactly the cells in `foot`, each reached in one way. */
  ghost predicate Holds(h: Heap, s: Slot, v: Json, foot: set<nat>)
    decreases v, Count(v) + 1
  {
    if !IsContainer(v) then s == Primitive(v) && foot == {}
    else
      s.Ref? && s.id < |h| && s.id in foot && |h[s.id].slots| == Count(v) && h[s.id] == CellOf(v, h[s.id].slots) &&
      HoldsFrom(h, h[s.id].slots, v, 0, foot - {s.id})
  }

  /** The slots from `k` on stand for the children of `v` and share no cell. */
  ghost predicate HoldsFrom(h: Heap, slots: seq<Slot>, v: Json, k: nat, foot: set<nat>)
    requires |slots| == Count(v) && k <= Count(v)
    decreases v, Count(v) - k
  {
    if k == Count(v) then foot == {}
    else exists f :: f <= foot && Holds(h, slots[k], Child(v, k), f) && HoldsFrom(h, slots, v, k + 1, foot - f)
  }

  /** The same for all children but `skip`. */
  ghost predicate HoldsOthers(h: Heap, slots: seq<Slot>, v: Json, k: nat, skip: nat, foot: set<nat>)
    requires |slots| == Count(v) && k <= Count(v)
    decreases Count(v) - k
  {
    if k == Count(v) then foot == {}
    else if k == skip then HoldsOthers(h, slots, v, k + 1, skip, foot)
    else exists f :: f <= foot && Holds(h, slots[k], Child(v, k), f) && HoldsOthers(h, slots, v, k + 1, skip, foot - f)
  }

  ghost predicate Agree(a: Heap, b: Heap, foot: set<nat>) {
    forall i :: i in foot && i < |a| ==> i < |b| && a[i] == b[i]
  }

  lemma {:induction false} HoldsFrame(a: Heap, b: Heap, s: Slot, v: Json, foot: set<nat>)
    requires Holds(a, s, v, foot) && Agree(a, b, foot)
    ensures Holds(b, s, v, foot)
    decreases v, Count(v) + 1
  {
    if IsContainer(v) { HoldsFromFrame(a, b, a[s.id].slots, v, 0, foot - {s.id}); }
  }

  lemma {:induction false} HoldsFromFrame(a: Heap, b: Heap, slots: seq<Slot>, v: Json, k: nat, foot: set<nat>)
    requires |slots| == Count(v) && k <= Count(v) && HoldsFrom(a, slots, v, k, foot) && Agree(a, b, foot)
    ensures HoldsFrom(b, slots, v, k, foot)
    decreases v, Count(v) - k
  {
    if k < Count(v) {
      var f :| f <= foot && Holds(a, slots[k], Child(v, k), f) && HoldsFrom(a, slots, v, k + 1, foot - f);
      assert Holds(a, slots[k], Child(v, k), f) && HoldsFrom(a, slots, v, k + 1, foot - f);
      HoldsFrame(a, b, slots[k], Child(v, k), f);
      HoldsFromFrame(a, b, slots, v, k + 1, foot - f);
    }
  }

  ghost predicate IsTree(h: Heap, s: Slot, v: Json) { exists foot :: Holds(h, s, v, foot) }

  lemma {:induction false} TreeStands(h: Heap, s: Slot, v: Json, foot: set<nat>)
    requires Holds(h, s, v, foot)
    ensures Stands(h, s, v)
    decreases v, Count(v) + 1
  {
    if IsContainer(v) { ChildrenStand(h, h[s.id].slots, v, 0, foot - {s.id}); }
  }

  lemma {:induction false} ChildrenStand(h: Heap, slots: seq<Slot>, v: Json, k: nat, foot: set<nat>)
    requires |slots| == Count(v) && k <= Count(v) && HoldsFrom(h, slots, v, k, foot)
    ensures forall j: nat :: k <= j < Count(v) ==> Stands(h, slots[j], Child(v, j))
    decreases v, Count(v) - k
  {
    if k < Count(v) {
      var f :| f <= foot && Holds(h, slots[k], Child(v, k), f) && HoldsFrom(h, slots, v, k + 1, foot - f);
      assert Holds(h, slots[k], Child(v, k), f) && HoldsFrom(h, slots, v, k + 1, foot - f);
      TreeStands(h, slots[k], Child(v, k), f);
      ChildrenStand(h, slots, v, k + 1, foot - f);
    }
  }

  lemma {:induction false} FootInside(h: Heap, s: Slot, v: Json, foot: set<nat>)
    requires Holds(h, s, v, foot)
    ensures forall i :: i in foot ==> i < |h|
    decreases v, Count(v) + 1
  {
    if IsContainer(v) {
      FootFromInside(h, h[s.id].slots, v, 0, foot - {s.id});
      assert forall i :: i in foot ==> i == s.id || i in foot - {s.id};
    }
  }

  lemma {:induction false} FootFromInside(h: Heap, slots: seq<Slot>, v: Json, k: nat, foot: set<nat>)
    requires |slots| == Count(v) && k <= Count(v) && HoldsFrom(h, slots, v, k, foot)
    ensures forall i :: i in foot ==> i < |h|
    decreases v, Count(v) - k
  {
    if k < Count(v) {
      var f :| f <= foot && Holds(h, slots[k], Child(v, k), f) && HoldsFrom(h, slots, v, k + 1, foot - f);
      assert Holds(h, slots[k], Child(v, k), f) && HoldsFrom(h, slots, v, k + 1, foot - f);
      FootInside(h, slots[k], Child(v, k), f);
      FootFromInside(h, slots, v, k + 1, foot - f);
      assert forall i :: i in foot ==> i in f || i in foot - f;
    }
  }

  /** One child with its cells, taken out. */
  lemma {:induction false} PickChild(h: Heap, slots: seq<Slot>, v: Json, k: nat, skip: nat, foot: set<nat>) returns (f: set<nat>)
    requires |slots| == Count(v) && k <= skip < Count(v) && HoldsFrom(h, slots, v, k, foot)
    ensures f <= foot && Holds(h, slots[skip], Child(v, skip), f) && HoldsOthers(h, slots, v, k, skip, foot - f)
    decreases Count(v) - k
  {
    var g :| g <= foot && Holds(h, slots[k], Child(v, k), g) && HoldsFrom(h, slots, v, k + 1, foot - g);
    assert Holds(h, slots[k], Child(v, k), g) && HoldsFrom(h, slots, v, k + 1, foot - g);
    if k == skip {
      f := g;
      AllOthers(h, slots, v, k + 1, skip, foot - g);
    } else {
      f := PickChild(h, slots, v, k + 1, skip, foot - g);
      assert (foot - f) - g == (foot - g) - f;
      assert g <= foot - f;
    }
  }

  lemma {:induction false} AllOthers(h: Heap, slots: seq<Slot>, v: Json, k: nat, skip: nat, foot: set<nat>)
    requires |slots| == Count(v) && skip < k <= Count(v) && HoldsFrom(h, slots, v, k, foot)
    ensures HoldsOthers(h, slots, v, k, skip, foot)
    decreases Count(v) - k
  {
    if k < Count(v) {
      var f :| f <= foot && Holds(h, slots[k], Child(v, k), f) && HoldsFrom(h, slots, v, k + 1, foot - f);
      assert Holds(h, slots[k], Child(v, k), f) && HoldsFrom(h, slots, v, k + 1, foot - f);
      AllOthers(h, slots, v, k + 1, skip, foot - f);
    }
  }

  /** Another child put in its place. */
  lemma {:induction false} PutChild(a: Heap, b: Heap, slots: seq<Slot>, v: Json, k: nat, skip: nat, foot: set<nat>, s: Slot, w: Json, g: set<nat>)
    requires |slots| == Count(v) && skip < Count(v) && k <= Count(v)
    requires HoldsOthers(a, slots, v, k, skip, foot) && Agree(a, b, foot)
    requires Holds(b, s, w, g) && g !! foot
    ensures Count(WithChild(v, skip, w)) == Count(v)
    ensures HoldsFrom(b, slots[skip := s], WithChild(v, skip, w), k, if k <= skip then foot + g else foot)
    decreases Count(v) - k
  {
    WithChildIs(v, skip, w);
    var u, news := WithChild(v, skip, w), slots[skip := s];
    if k == Count(v) {
    } else if k == skip {
      PutChild(a, b, slots, v, k + 1, skip, foot, s, w, g);
      assert (foot + g) - g == foot;
      assert Holds(b, news[k], Child(u, k), g);
    } else {
      var f :| f <= foot && Holds(a, slots[k], Child(v, k), f) && HoldsOthers(a, slots, v, k + 1, skip, foot - f);
      assert Holds(a, slots[k], Child(v, k), f) && HoldsOthers(a, slots, v, k + 1, skip, foot - f);
      HoldsFrame(a, b, slots[k], Child(v, k), f);
      PutChild(a, b, slots, v, k + 1, skip, foot - f, s, w, g);
      assert k < skip ==> (foot + g) - f == (foot - f) + g;
      assert Holds(b, news[k], Child(u, k), f);
    }
  }

  // ---------------------------------------------------------------- writing at a path

  function KeyIndex(keys: seq<string>, key: string): Option<nat> {
    if keys == [] then None
    else if keys[0] == key then Some(0)
    else
      var i := KeyIndex(keys[1..], key);
      if i.Some? then Some(i.value + 1) else None
  }

  function SlotIndex(c: Cell, step: Step): (k: Option<nat>)
    ensures k.Some? ==> k.value < |c.slots|
  {
    match (step, c)
    case (Key(key), ObjCell(keys, slots)) =>
      var k := KeyIndex(keys, key);
      if k.Some? && k.value < |slots| then k else None
    case (Index(i), ArrCell(slots)) => if i < |slots| then Some(i) else None
    case _ => None
  }

  function WithSlot(c: Cell, k: nat, s: Slot): Cell
    requires k < |c.slots|
  {
    c.(slots := c.slots[k := s])
  }

  /** The memory after one write: only the cell that holds the last step of the path changes. */
  function SetAt(h: Heap, s: Slot, path: seq<Step>, value: Slot): (r: Heap)
    requires path != []
    ensures |r| == |h|
    decreases |path|
  {
    if !s.Ref? || s.id >= |h| then h
    else
      var k := SlotIndex(h[s.id], path[0]);
      if k.None? then h
      else if |path| == 1 then h[s.id := WithSlot(h[s.id], k.value, value)]
      else SetAt(h, h[s.id].slots[k.value], path[1..], value)
  }

  lemma {:induction false} KeyIndexIs(entries: seq<(string, Json)>, key: string, w: Json)
    ensures
      var k := KeyIndex(KeysOf(entries), key);
      if k.None? then Lookup(entries, key) == None
      else
        k.value < |entries| && entries[k.value].0 == key && Lookup(entries, key) == Some(entries[k.value].1) &&
        Replaced(entries, key, w) == entries[k.value := (key, w)]
    decreases |entries|
  {
    if entries != [] {
      assert KeysOf(entries)[1..] == KeysOf(entries[1..]);
      if entries[0].0 == key {
        assert [(key, w)] + entries[1..] == entries[0 := (key, w)];
      } else {
        KeyIndexIs(entries[1..], key, w);
        var k := KeyIndex(KeysOf(entries[1..]), key);
        if k.Some? {
          assert [entries[0]] + entries[1..][k.value := (key, w)] == entries[k.value + 1 := (key, w)];
        }
      }
    }
  }

  /** A step into a value is a step into its cell. */
  lemma StepInto(v: Json, slots: seq<Slot>, path: seq<Step>, w: Json)
    requires IsContainer(v) && |slots| == Count(v) && path != []
    ensures
      var k := SlotIndex(CellOf(v, slots), path[0]);
      if k.None? then GetValueAtPath(v, path) == None
      else
        GetValueAtPath(v, path) == GetValueAtPath(Child(v, k.value), path[1..]) &&
        SetValueAtPath(v, path, w) == WithChild(v, k.value, SetValueAtPath(Child(v, k.value), path[1..], w))
  {
    if v.JObj? && path[0].Key? {
      var child := Lookup(v.entries, path[0].key);
      KeyIndexIs(v.entries, path[0].key, if child.Some? then SetValueAtPath(child.value, path[1..], w) else w);
    }
  }

  /** The write changes no cell outside the edited value. */
  lemma {:induction false} SetTouches(h: Heap, s: Slot, v: Json, foot: set<nat>, path: seq<Step>, value: Slot)
    requires Holds(h, s, v, foot) && path != []
    ensures forall i :: 0 <= i < |h| && i !in foot ==> SetAt(h, s, path, value)[i] == h[i]
    decreases |path|
  {
    if IsContainer(v) {
      var k := SlotIndex(h[s.id], path[0]);
      if k.Some? && |path| > 1 {
        var f := PickChild(h, h[s.id].slots, v, 0, k.value, foot - {s.id});
        SetTouches(h, h[s.id].slots[k.value], Child(v, k.value), f, path[1..], value);
      }
    }
  }

  /** The write goes to one slot of one cell that the edited value had before, or nowhere. */
  lemma {:induction false} SetAtOwn(start: Heap, h: Heap, s: Slot, v: Json, path: seq<Step>, value: Slot, base: nat) returns (c: nat, k: nat)
    requires path != [] && start <= h && Stands(start, s, v) && Own(h, base) && OwnSlots([s], base)
    ensures SetAt(h, s, path, value) == h ||
      (base <= c < |start| && k < |h[c].slots| && SetAt(h, s, path, value) == h[c := WithSlot(h[c], k, value)])
    decreases |path|
  {
    c, k := 0, 0;
    if s.Ref? {
      assert s in [s] && h[s.id] == start[s.id];
      var found := SlotIndex(h[s.id], path[0]);
      if found.Some? {
        if |path| == 1 {
          c, k := s.id, found.value;
        } else {
          var next := h[s.id].slots[found.value];
          assert next in h[s.id].slots;
          c, k := SetAtOwn(start, h, next, Child(v, found.value), path[1..], value, base);
        }
      }
    }
  }

  lemma OwnWrite(h: Heap, c: nat, k: nat, s: Slot, base: nat)
    requires Own(h, base) && c < |h| && k < |h[c].slots| && OwnSlots([s], base)
    ensures Own(h[c := WithSlot(h[c], k, s)], base)
  {
    var news := WithSlot(h[c], k, s).slots;
    if c >= base {
      forall t | t in news && t.Ref? ensures base <= t.id {
        var j :| 0 <= j < |news| && news[j] == t;
        assert if j == k then t in [s] else t in h[c].slots;
      }
    }
  }

  lemma OneStep(h: Heap, s: Slot, v: Json, foot: set<nat>, k: nat, f: set<nat>, b: Heap, ns: Slot, w: Json, g: set<nat>)
    requires Holds(h, s, v, foot) && IsContainer(v) && k < Count(v)
    requires f <= foot - {s.id} && HoldsOthers(h, h[s.id].slots, v, 0, k, (foot - {s.id}) - f)
    requires |b| >= |h| && b[s.id] == WithSlot(h[s.id], k, ns) && Agree(h, b, (foot - {s.id}) - f)
    requires Holds(b, ns, w, g) && g !! (foot - f)
    ensures Holds(b, s, WithChild(v, k, w), (foot - f) + g)
  {
    var rest := (foot - {s.id}) - f;
    WithChildIs(v, k, w);
    PutChild(h, b, h[s.id].slots, v, 0, k, rest, ns, w, g);
    assert ((foot - f) + g) - {s.id} == rest + g;
    assert CellOf(WithChild(v, k, w), b[s.id].slots) == CellOf(v, b[s.id].slots);
  }

  /** The edited memory stands for the value edited at the path. */
  lemma {:induction false} SetHolds(h: Heap, s: Slot, v: Json, foot: set<nat>, path: seq<Step>, ns: Slot, w: Json, g: set<nat>)
      returns (after: set<nat>)
    requires Holds(h, s, v, foot) && path != [] && GetValueAtPath(v, path).Some?
    requires Holds(h, ns, w, g) && g !! foot
    ensures after <= foot + g && Holds(SetAt(h, s, path, ns), s, SetValueAtPath(v, path, w), after)
    decreases |path|
  {
    assert IsContainer(v);
    var b, slots := SetAt(h, s, path, ns), h[s.id].slots;
    StepInto(v, slots, path, w);
    var k := SlotIndex(h[s.id], path[0]).value;
    var f := PickChild(h, slots, v, 0, k, foot - {s.id});
    SetTouches(h, s, v, foot, path, ns);
    if |path| == 1 {
      assert path[1..] == [];
      HoldsFrame(h, b, ns, w, g);
      OneStep(h, s, v, foot, k, f, b, ns, w, g);
      after := (foot - f) + g;
    } else {
      var inner := SetHolds(h, slots[k], Child(v, k), f, path[1..], ns, w, g);
      SetTouches(h, slots[k], Child(v, k), f, path[1..], ns);
      assert WithSlot(h[s.id], k, slots[k]) == h[s.id];
      OneStep(h, s, v, foot, k, f, b, slots[k], SetValueAtPath(Child(v, k), path[1..], w), inner);
      after := (foot - f) + inner;
    }
  }

  // ---------------------------------------------------------------- new cells

  function Alloc(h: Heap, v: Json): (Heap, Slot)
    decreases v, Count(v) + 1
  {
    if !IsContainer(v) then (h, Primitive(v))
    else
      var (b, slots) := AllocFrom(h, v, 0);
      (b + [CellOf(v, slots)], Ref(|b|))
  }

  function AllocFrom(h: Heap, v: Json, k: nat): (Heap, seq<Slot>)
    requires k <= Count(v)
    decreases v, Count(v) - k
  {
    if k == Count(v) then (h, [])
    else
      var (b, first) := Alloc(h, Child(v, k));
      var (c, rest) := AllocFrom(b, v, k + 1);
      (c, [first] + rest)
  }

  predicate Between(a: nat, i: nat, b: nat) { a <= i < b }

  ghost function Interval(a: nat, b: nat): set<nat> { set i: nat | i < b && Between(a, i, b) }

  /** New cells hold the value, and all of them are new. */
  lemma {:induction false} AllocHolds(h: Heap, v: Json)
    ensures var (b, s) := Alloc(h, v); h <= b && Holds(b, s, v, Interval(|h|, |b|))
    decreases v, Count(v) + 1
  {
    if IsContainer(v) {
      var (b, slots) := AllocFrom(h, v, 0);
      AllocLength(h, v, 0);
      assert slots[0..] == slots;
      AllocFromHolds(h, v, 0, slots);
      var c := b + [CellOf(v, slots)];
      assert Interval(|h|, |c|) - {|b|} == Interval(|h|, |b|);
      HoldsFromFrame(b, c, slots, v, 0, Interval(|h|, |b|));
    }
  }

  lemma {:induction false} AllocFromHolds(h: Heap, v: Json, k: nat, slots: seq<Slot>)
    requires k <= Count(v) == |slots| && slots[k..] == AllocFrom(h, v, k).1
    ensures var b := AllocFrom(h, v, k).0; h <= b && HoldsFrom(b, slots, v, k, Interval(|h|, |b|))
    decreases v, Count(v) - k
  {
    if k < Count(v) {
      var (b, first) := Alloc(h, Child(v, k));
      var (c, rest) := AllocFrom(b, v, k + 1);
      AllocHolds(h, Child(v, k));
      assert slots[k] == slots[k..][0] && slots[k + 1..] == slots[k..][1..] == rest;
      AllocFromHolds(b, v, k + 1, slots);
      var f := Interval(|h|, |b|);
      HoldsFrame(b, c, first, Child(v, k), f);
      assert f <= Interval(|h|, |c|) && Interval(|h|, |c|) - f == Interval(|b|, |c|);
    }
  }

  lemma {:induction false} AllocLength(h: Heap, v: Json, k: nat)
    requires k <= Count(v)
    ensures |AllocFrom(h, v, k).1| == Count(v) - k
    decreases Count(v) - k
  {
    if k < Count(v) { AllocLength(Alloc(h, Child(v, k)).0, v, k + 1); }
  }

  lemma PrefixAgrees(a: Heap, b: Heap, s: Slot, v: Json, foot: set<nat>)
    requires a <= b && Holds(a, s, v, foot)
    ensures Holds(b, s, v, foot)
  {
    HoldsFrame(a, b, s, v, foot);
  }

  /** What is allocated refers to nothing older. */
  lemma {:induction false} AllocOwn(h: Heap, v: Json, base: nat)
    requires Own(h, base)
    ensures var (b, s) := Alloc(h, v); h <= b && Own(b, base) && OwnSlots([s], base)
    decreases v, Count(v) + 1
  {
    if IsContainer(v) { AllocFromOwn(h, v, 0, base); }
  }

  lemma {:induction false} AllocFromOwn(h: Heap, v: Json, k: nat, base: nat)
    requires k <= Count(v) && Own(h, base)
    ensures var (b, slots) := AllocFrom(h, v, k); h <= b && Own(b, base) && OwnSlots(slots, base)
    decreases v, Count(v) - k
  {
    if k < Count(v) {
      var (b, first) := Alloc(h, Child(v, k));
      AllocOwn(h, Child(v, k), base);
      AllocFromOwn(b, v, k + 1, base);
      assert first in [first];
    }
  }

  // ---------------------------------------------------------------- cloning with sharing

  /** The slot with its reference led to the copy. */
  function Moved(s: Slot, memo: map<nat, nat>): Slot { if s.Ref? && s.id in memo then Ref(memo[s.id]) else s }

  function MovedAll(slots: seq<Slot>, memo: map<nat, nat>): seq<Slot> {
    seq(|slots|, i requires 0 <= i < |slots| => Moved(slots[i], memo))
  }

  ghost predicate Known(slots: seq<Slot>, memo: map<nat, nat>) { forall s :: s in slots && s.Ref? ==> s.id in memo }

  /** Every copied cell has one copy, alike but for its references, which lead to the copies. */
  ghost predicate Mirrors(h: Heap, base: nat, memo: map<nat, nat>) {
    && base <= |h|
    && (forall id :: id in memo ==> id < base <= memo[id] < |h|)
    && (forall a, b :: a in memo && b in memo && a != b ==> memo[a] != memo[b])
    && forall id :: id in memo ==> Known(h[id].slots, memo) && h[memo[id]] == h[id].(slots := MovedAll(h[id].slots, memo))
  }

  /** Each copy stands for what its original stands for. */
  ghost predicate Same(h: Heap, memo: map<nat, nat>, means: map<nat, Json>) {
    memo.Keys == means.Keys &&
    forall id :: id in memo ==> Stands(h, Ref(id), means[id]) && Stands(h, Ref(memo[id]), means[id])
  }

  ghost function Image(foot: set<nat>, memo: map<nat, nat>): set<nat> { set id | id in foot && id in memo :: memo[id] }

  lemma ImageWithout(h: Heap, base: nat, memo: map<nat, nat>, foot: set<nat>, part: set<nat>)
    requires Mirrors(h, base, memo) && part <= foot
    ensures Image(part, memo) <= Image(foot, memo) && Image(foot - part, memo) == Image(foot, memo) - Image(part, memo)
  {
  }

  /** The copy of a tree is a tree. */
  lemma {:induction false} MirrorHolds(h: Heap, base: nat, memo: map<nat, nat>, s: Slot, v: Json, foot: set<nat>)
    requires Mirrors(h, base, memo) && Known([s], memo) && Holds(h, s, v, foot)
    ensures Holds(h, Moved(s, memo), v, Image(foot, memo))
    decreases v, Count(v) + 1
  {
    if IsContainer(v) {
      assert s in [s];
      var slots := h[s.id].slots;
      ImageWithout(h, base, memo, foot, {s.id});
      assert Image({s.id}, memo) == {memo[s.id]};
      MirrorHoldsFrom(h, base, memo, slots, v, 0, foot - {s.id});
      assert CellOf(v, MovedAll(slots, memo)) == h[memo[s.id]];
    }
  }

  lemma {:induction false} MirrorHoldsFrom(h: Heap, base: nat, memo: map<nat, nat>, slots: seq<Slot>, v: Json, k: nat, foot: set<nat>)
    requires Mirrors(h, base, memo) && Known(slots, memo) && |slots| == Count(v) && k <= Count(v) && HoldsFrom(h, slots, v, k, foot)
    ensures HoldsFrom(h, MovedAll(slots, memo), v, k, Image(foot, memo))
    decreases v, Count(v) - k
  {
    if k < Count(v) {
      var f :| f <= foot && Holds(h, slots[k], Child(v, k), f) && HoldsFrom(h, slots, v, k + 1, foot - f);
      assert Holds(h, slots[k], Child(v, k), f) && HoldsFrom(h, slots, v, k + 1, foot - f);
      assert slots[k] in slots;
      MirrorHolds(h, base, memo, slots[k], Child(v, k), f);
      MirrorHoldsFrom(h, base, memo, slots, v, k + 1, foot - f);
      ImageWithout(h, base, memo, foot, f);
      assert Holds(h, MovedAll(slots, memo)[k], Child(v, k), Image(f, memo));
    }
  }

  /** The state of a clone under way. */
  ghost predicate Cloning(h: Heap, base: nat, memo: map<nat, nat>, means: map<nat, Json>) {
    Mirrors(h, base, memo) && Same(h, memo, means) && Own(h, base)
  }

  /** The clone got on by parts of `v`, and of `v` itself if `all`. */
  ghost predicate GotOn(memo: map<nat, nat>, means: map<nat, Json>, memo': map<nat, nat>, means': map<nat, Json>, v: Json, all: bool) {
    && (forall id :: id in memo && id in means ==> id in memo' && id in means' && memo'[id] == memo[id] && means'[id] == means[id])
    && forall id :: id in memo' && id !in memo && id in means' ==> means'[id] < v || (all && means'[id] == v)
  }

  lemma GotOnFurther(memo: map<nat, nat>, means: map<nat, Json>, memo': map<nat, nat>, means': map<nat, Json>,
      memo'': map<nat, nat>, means'': map<nat, Json>, v: Json, k: nat)
    requires memo.Keys == means.Keys && memo'.Keys == means'.Keys && memo''.Keys == means''.Keys && k < Count(v)
    requires GotOn(memo, means, memo', means', v, false) && GotOn(memo', means', memo'', means'', Child(v, k), true)
    ensures GotOn(memo, means, memo'', means'', v, false)
  {
  }

  /** Copying the parts of a cell never comes back to that cell. */
  lemma NotCopiedYet(h: Heap, memo: map<nat, nat>, means: map<nat, Json>, memo': map<nat, nat>, means': map<nat, Json>,
      id: nat, copy: nat, v: Json)
    requires Same(h, memo', means') && GotOn(memo, means, memo', means', v, false) && id !in memo && Stands(h, Ref(id), v)
    ensures id !in memo'
    ensures GotOn(memo, means, memo'[id := copy], means'[id := v], v, true)
  {
    if id in memo' { StandsUnique(h, Ref(id), v, means'[id]); }
  }

  /** The memory with the copy of one cell added. */
  function WithCopy(h: Heap, memo: map<nat, nat>, id: nat): Heap
    requires id < |h|
  {
    h + [h[id].(slots := MovedAll(h[id].slots, memo))]
  }

  /** A copy is added behind the copies of its children. */
  lemma AddCopy(h: Heap, base: nat, memo: map<nat, nat>, means: map<nat, Json>, id: nat, v: Json)
    requires Cloning(h, base, memo, means) && id < base && id !in memo && IsContainer(v) && Stands(h, Ref(id), v)
    requires Known(h[id].slots, memo)
    ensures Cloning(WithCopy(h, memo, id), base, memo[id := |h|], means[id := v])
  {
    AddMirror(h, base, memo, id);
    AddSame(h, memo, means, id, v);
    AddOwn(h, base, memo, id);
  }

  lemma AddMirror(h: Heap, base: nat, memo: map<nat, nat>, id: nat)
    requires Mirrors(h, base, memo) && id < base && id !in memo && Known(h[id].slots, memo)
    ensures Mirrors(WithCopy(h, memo, id), base, memo[id := |h|])
  {
    var b, memo' := WithCopy(h, memo, id), memo[id := |h|];
    forall a | a in memo' ensures Known(b[a].slots, memo') && b[memo'[a]] == b[a].(slots := MovedAll(b[a].slots, memo')) {
      MovedSame(b[a].slots, memo, memo', id);
    }
  }

  lemma SameLater(a: Heap, b: Heap, memo: map<nat, nat>, means: map<nat, Json>)
    requires a <= b && Same(a, memo, means)
    ensures Same(b, memo, means)
  {
    forall id | id in memo ensures Stands(b, Ref(id), means[id]) && Stands(b, Ref(memo[id]), means[id]) {
      StandsLater(a, b, Ref(id), means[id]);
      StandsLater(a, b, Ref(memo[id]), means[id]);
    }
  }

  lemma AddSame(h: Heap, memo: map<nat, nat>, means: map<nat, Json>, id: nat, v: Json)
    requires Same(h, memo, means) && IsContainer(v) && Stands(h, Ref(id), v) && Known(h[id].slots, memo)
    ensures Same(WithCopy(h, memo, id), memo[id := |h|], means[id := v])
  {
    var b := WithCopy(h, memo, id);
    CopyStands(h, memo, means, id, v);
    SameLater(h, b, memo, means);
    StandsLater(h, b, Ref(id), v);
    SameOneMore(b, memo, means, id, |h|, v);
  }

  lemma SameOneMore(h: Heap, memo: map<nat, nat>, means: map<nat, Json>, id: nat, copy: nat, v: Json)
    requires Same(h, memo, means) && Stands(h, Ref(id), v) && Stands(h, Ref(copy), v)
    ensures Same(h, memo[id := copy], means[id := v])
  {
  }

  lemma AddOwn(h: Heap, base: nat, memo: map<nat, nat>, id: nat)
    requires Mirrors(h, base, memo) && Own(h, base) && id < base && Known(h[id].slots, memo)
    ensures Own(WithCopy(h, memo, id), base)
  {
    var slots := MovedAll(h[id].slots, memo);
    forall s | s in slots && s.Ref? ensures base <= s.id {
      var j :| 0 <= j < |slots| && slots[j] == s;
      assert h[id].slots[j] in h[id].slots;
    }
  }

  /** Slots that were known move as before. */
  lemma MovedSame(slots: seq<Slot>, memo: map<nat, nat>, memo': map<nat, nat>, id: nat)
    requires Known(slots, memo) && id in memo' && memo' == memo[id := memo'[id]] && id !in memo
    ensures Known(slots, memo') && MovedAll(slots, memo') == MovedAll(slots, memo)
  {
    forall i | 0 <= i < |slots| ensures Moved(slots[i], memo') == Moved(slots[i], memo) { assert slots[i] in slots; }
  }

  lemma CopyStands(h: Heap, memo: map<nat, nat>, means: map<nat, Json>, id: nat, v: Json)
    requires Same(h, memo, means) && IsContainer(v) && Stands(h, Ref(id), v) && Known(h[id].slots, memo)
    ensures Stands(WithCopy(h, memo, id), Ref(|h|), v)
  {
    var slots, b := MovedAll(h[id].slots, memo), WithCopy(h, memo, id);
    forall k: nat | k < Count(v) ensures Stands(b, slots[k], Child(v, k)) {
      var s := h[id].slots[k];
      assert s in h[id].slots;
      if s.Ref? {
        StandsUnique(h, s, Child(v, k), means[s.id]);
        StandsLater(h, b, Ref(memo[s.id]), means[s.id]);
      }
    }
    assert b[|h|] == CellOf(v, slots);
  }

  lemma CopiedTree(a: Heap, b: Heap, memo: map<nat, nat>, s: Slot, v: Json)
    requires a <= b && Mirrors(b, |a|, memo) && Known([s], memo)
    ensures IsTree(a, s, v) ==> IsTree(b, Moved(s, memo), v)
  {
    if foot :| Holds(a, s, v, foot) {
      PrefixAgrees(a, b, s, v, foot);
      MirrorHolds(b, |a|, memo, s, v, foot);
    }
  }

  lemma CopyIsOwn(h: Heap, base: nat, memo: map<nat, nat>, means: map<nat, Json>, s: Slot, v: Json)
    requires Cloning(h, base, memo, means) && Known([s], memo) && (s.Ref? ==> means[s.id] == v) && (s.Primitive? ==> Stands(h, s, v))
    ensures Stands(h, Moved(s, memo), v) && OwnSlots([Moved(s, memo)], base)
  {
    assert s in [s];
  }

  // ---------------------------------------------------------------- one conversion

  /** The memory after a converted value has been put at a path, in new cells. */
  function Put(h: Heap, root: Slot, path: seq<Step>, converted: Json): Heap
    requires path != []
  {
    var (b, slot) := Alloc(h, converted);
    SetAt(b, root, path, slot)
  }

  /** The clone still stands for a value, and older cells are not written. */
  lemma Written(h: Heap, root: Slot, path: seq<Step>, converted: Json, base: nat, v: Json) returns (after: Json)
    requires path != [] && Stands(h, root, v) && Own(h, base) && OwnSlots([root], base)
    ensures
      var b := Put(h, root, path, converted);
      base <= |b| && b[..base] == h[..base] && Own(b, base) && Stands(b, root, after)
  {
    var (mid, slot) := Alloc(h, converted);
    AllocOwn(h, converted, base);
    StandsLater(h, mid, root, v);
    var c, k := SetAtOwn(h, mid, root, v, path, slot, base);
    var b := Put(h, root, path, converted);
    if b == mid {
      after := v;
    } else {
      OwnWrite(mid, c, k, slot, base);
      NewStands(h, b, converted, c, k);
      EditedStands(mid, b, root, v, c, k, slot, converted);
      after := Edited(mid, root, v, c, k, converted);
    }
  }

  lemma NewStands(h: Heap, b: Heap, converted: Json, c: nat, k: nat)
    requires
      var (mid, slot) := Alloc(h, converted);
      c < |h| <= |mid| && k < |mid[c].slots| && b == mid[c := WithSlot(mid[c], k, slot)]
    ensures Stands(b, Alloc(h, converted).1, converted)
  {
    var (mid, slot) := Alloc(h, converted);
    AllocHolds(h, converted);
    var cells := Interval(|h|, |mid|);
    HoldsFrame(mid, b, slot, converted, cells);
    TreeStands(b, slot, converted, cells);
  }

  /** On a tree, it stands for the value edited at the path. */
  lemma WrittenTree(h: Heap, root: Slot, path: seq<Step>, converted: Json, v: Json, after: Json)
    requires path != [] && Stands(Put(h, root, path, converted), root, after)
    ensures IsTree(h, root, v) && GetValueAtPath(v, path).Some? ==>
      IsTree(Put(h, root, path, converted), root, after) && after == SetValueAtPath(v, path, converted)
  {
    if IsTree(h, root, v) && GetValueAtPath(v, path).Some? {
      var foot :| Holds(h, root, v, foot);
      var (mid, slot) := Alloc(h, converted);
      AllocHolds(h, converted);
      PrefixAgrees(h, mid, root, v, foot);
      FootInside(h, root, v, foot);
      var b := Put(h, root, path, converted);
      var cells := SetHolds(mid, root, v, foot, path, slot, converted, Interval(|h|, |mid|));
      TreeStands(b, root, SetValueAtPath(v, path, converted), cells);
      StandsUnique(b, root, SetValueAtPath(v, path, converted), after);
    }
  }

  // ---------------------------------------------------------------- the loop

  /** A parse that fails at first: it is repeated on the repaired value, or has failed. */
  lemma ParseAfterIssues(rt: Runtime, s: Schema, v: Json, maxDepth: int, fixed: bool, after: Json, next: Attempted)
    requires maxDepth > 0 && Issues(s, Some(v)) != []
    requires fixed == AnyFixed(rt, v, BelowRoot(Issues(s, Some(v)))) && after == FixAll(rt, v, BelowRoot(Issues(s, Some(v))))
    requires fixed ==> next == Parse(rt, s, Some(after), maxDepth - 1)
    ensures Parse(rt, s, Some(v), maxDepth) ==
      if fixed then next.(attempts := next.attempts + 1) else Attempted(Err(Invalid(Issues(s, Some(v)))), 1)
  {
  }

  class Memory {
    var heap: Heap

    constructor (heap: Heap)
      ensures this.heap == heap
    {
      this.heap := heap;
    }

    /** Reads the value that a slot stands for. */
    method Read(s: Slot, ghost v: Json) returns (value: Json)
      requires Stands(heap, s, v)
      ensures value == v
      decreases v
    {
      match s
      case Primitive(p) => value := p;
      case Ref(id) =>
        var cell := heap[id];
        var children: seq<Json> := [];
        for k := 0 to |cell.slots|
          invariant |children| == k && forall j :: 0 <= j < k ==> children[j] == Child(v, j)
        {
          var child := Read(cell.slots[k], Child(v, k));
          children := children + [child];
        }
        match cell {
          case ArrCell(_) =>
            assert v.JArr? && children == v.items;
            value := JArr(children);
          case ObjCell(keys, _) =>
            assert v.JObj? && keys == KeysOf(v.entries);
            var entries := seq(|children|, i requires 0 <= i < |children| && |keys| == |children| => (keys[i], children[i]));
            assert entries == v.entries;
            value := JObj(entries);
        }
    }

    /** Copies what a slot reaches, each cell once: a cell copied before is found in `memo`. */
    method CloneInto(s: Slot, memo: map<nat, nat>, ghost base: nat, ghost v: Json, ghost means: map<nat, Json>)
        returns (copy: Slot, memo': map<nat, nat>, ghost means': map<nat, Json>)
      requires Cloning(heap, base, memo, means) && Stands(heap[..base], s, v)
      modifies this
      ensures old(heap) <= heap && Cloning(heap, base, memo', means') && GotOn(memo, means, memo', means', v, true)
      ensures Known([s], memo') && copy == Moved(s, memo') && (s.Ref? ==> means'[s.id] == v)
      decreases v, 2
    {
      copy, memo', means' := s, memo, means;
      if s.Ref? {
        if s.id in memo {
          StandsLater(heap[..base], heap, s, v);
          StandsUnique(heap, s, v, means[s.id]);
        } else {
          memo', means' := CopyCell(s.id, memo, base, v, means);
        }
        copy := Ref(memo'[s.id]);
      }
    }

    method CopyCell(id: nat, memo: map<nat, nat>, ghost base: nat, ghost v: Json, ghost means: map<nat, Json>)
        returns (memo': map<nat, nat>, ghost means': map<nat, Json>)
      requires Cloning(heap, base, memo, means) && Stands(heap[..base], Ref(id), v) && id !in memo
      modifies this
      ensures old(heap) <= heap && Cloning(heap, base, memo', means') && GotOn(memo, means, memo', means', v, true)
      ensures id in memo' && id in means' && means'[id] == v
      decreases v, 1
    {
      ghost var start := heap[..base];
      var slots, copies, values := CloneSlots(id, memo, base, v, means);
      assert heap[..base] == start;
      StandsLater(start, heap, Ref(id), v);
      NotCopiedYet(heap, memo, means, copies, values, id, |heap|, v);
      AddCopy(heap, base, copies, values, id, v);
      memo', means' := copies[id := |heap|], values[id := v];
      heap := heap + [heap[id].(slots := slots)];
    }

    method CloneSlots(id: nat, memo: map<nat, nat>, ghost base: nat, ghost v: Json, ghost means: map<nat, Json>)
        returns (slots: seq<Slot>, memo': map<nat, nat>, ghost means': map<nat, Json>)
      requires Cloning(heap, base, memo, means) && IsContainer(v) && Stands(heap[..base], Ref(id), v)
      modifies this
      ensures old(heap) <= heap && Cloning(heap, base, memo', means') && GotOn(memo, means, memo', means', v, false)
      ensures Known(heap[id].slots, memo') && slots == MovedAll(heap[id].slots, memo')
      decreases v, 0
    {
      var olds := heap[id].slots;
      slots, memo', means' := [], memo, means;
      for k := 0 to |olds|
        invariant old(heap) <= heap && Cloning(heap, base, memo', means') && GotOn(memo, means, memo', means', v, false)
        invariant Known(olds[..k], memo') && slots == MovedAll(olds[..k], memo')
      {
        assert heap[..base] == old(heap)[..base];
        var copy, memo'', means'' := CloneInto(olds[k], memo', base, Child(v, k), means');
        KnownMore(olds, k, memo', memo'');
        GotOnFurther(memo, means, memo', means', memo'', means'', v, k);
        slots, memo', means' := slots + [copy], memo'', means'';
      }
      assert olds[..|olds|] == olds;
    }

    /** A deep copy: new cells, shared among one another as the old ones are. */
    method CloneDeep(s: Slot, ghost v: Json) returns (copy: Slot, ghost memo: map<nat, nat>)
      requires Stands(heap, s, v)
      modifies this
      ensures old(heap) <= heap && Own(heap, |old(heap)|) && OwnSlots([copy], |old(heap)|) && Stands(heap, copy, v)
      ensures Mirrors(heap, |old(heap)|, memo) && Known([s], memo) && copy == Moved(s, memo)
      ensures IsTree(old(heap), s, v) ==> IsTree(heap, copy, v)
    {
      ghost var base := |heap|;
      assert heap[..base] == heap;
      var slot, copies, values := CloneInto(s, map[], base, v, map[]);
      copy, memo := slot, copies;
      CopyIsOwn(heap, base, copies, values, s, v);
      CopiedTree(old(heap), heap, copies, s, v);
    }

    /** Walks the path and writes into the last container; a path that does not exist changes nothing. */
    method SetValueAtPath(root: Slot, path: seq<Step>, value: Slot)
      requires path != []
      modifies this
      ensures heap == SetAt(old(heap), root, path, value)
    {
      var current := root;
      assert path[0..] == path;
      for i := 0 to |path| - 1
        invariant heap == old(heap) && SetAt(heap, current, path[i..], value) == SetAt(heap, root, path, value)
      {
        assert path[i..][0] == path[i] && path[i..][1..] == path[i + 1..];
        if !current.Ref? || current.id >= |heap| { return; }
        var k := SlotIndex(heap[current.id], path[i]);
        if k.None? { return; }
        current := heap[current.id].slots[k.value];
      }
      var last := |path| - 1;
      assert path[last..] == [path[last]];
      if current.Ref? && current.id < |heap| {
        var k := SlotIndex(heap[current.id], path[last]);
        if k.Some? {
          heap := heap[current.id := WithSlot(heap[current.id], k.value, value)];
        }
      }
    }

    /** Puts a converted value at a path of the clone, in new cells; cells below `base` are not written. */
    method Convert(root: Slot, path: seq<Step>, converted: Json, ghost base: nat, ghost v: Json) returns (ghost after: Json)
      requires path != [] && Stands(heap, root, v) && Own(heap, base) && OwnSlots([root], base)
      modifies this
      ensures base <= |heap| && heap[..base] == old(heap)[..base] && Own(heap, base) && Stands(heap, root, after)
      ensures IsTree(old(heap), root, v) && GetValueAtPath(v, path).Some? ==>
        IsTree(heap, root, after) && after == TypeConversion.SetValueAtPath(v, path, converted)
    {
      ghost var start := heap;
      var (h, slot) := Alloc(heap, converted);
      heap := h;
      SetValueAtPath(root, path, slot);
      after := Written(start, root, path, converted, base, v);
      WrittenTree(start, root, path, converted, v, after);
    }

    /** One pass over the issues on a clone: every old cell is as it was, and a tree is repaired as its value is. */
    method RepairClone(rt: Runtime, arg: Slot, issues: seq<Issue>, ghost v: Json) returns (root: Slot, fixed: bool, ghost after: Json)
      requires Stands(heap, arg, v)
      modifies this
      ensures old(heap) <= heap && Stands(heap, root, after)
      ensures IsTree(old(heap), arg, v) ==>
        IsTree(heap, root, after) && after == FixAll(rt, v, BelowRoot(issues)) && (fixed <==> AnyFixed(rt, v, BelowRoot(issues)))
    {
      ghost var base, tree := |heap|, IsTree(heap, arg, v);
      var copy, memo := CloneDeep(arg, v);
      root, fixed, after := copy, false, v;
      WorkStarts(rt, v, issues);
      for i := 0 to |issues|
        invariant base == |old(heap)| <= |heap| && heap[..base] == old(heap) && Own(heap, base) && OwnSlots([root], base)
        invariant Stands(heap, root, after)
        invariant tree ==> IsTree(heap, root, after) && WorkedOff(rt, v, issues, i, after, fixed)
      {
        if tree { WorkOff(rt, v, issues, i, after, fixed); }
        if issues[i].path != [] {
          var value := Read(root, after);
          var converted := Conversion(rt, value, issues[i]);
          if converted.Some? {
            after := Convert(root, issues[i].path, converted.value, base, after);
            fixed := true;
          }
        }
      }
      if tree { WorkEnds(rt, v, issues, after, fixed); }
    }

    /**
     The whole parse, for arguments whose objects may be shared: every cell of the caller is as it was, and what is
     returned is accepted. For a tree, such as parsed JSON, the result is that of the parse on values.
     */
    method ParseWithTypeConversion(rt: Runtime, s: Schema, arg: Option<Slot>, maxDepth: int, ghost v: Option<Json>)
        returns (result: Result<Option<Json>, Failure>, attempts: nat)
      requires arg.Some? == v.Some? && (arg.Some? ==> Stands(heap, arg.value, v.value))
      modifies this
      ensures old(heap) <= heap
      ensures attempts <= if maxDepth <= 0 then 0 else maxDepth
      ensures result.Ok? && WellFormed(s) ==> Issues(s, result.value) == []
      ensures (arg.Some? ==> IsTree(old(heap), arg.value, v.value)) ==> Attempted(result, attempts) == Parse(rt, s, v, maxDepth)
      decreases maxDepth, 1
    {
      if maxDepth <= 0 { return Err(DepthExceeded), 0; }
      var value := None;
      if arg.Some? {
        var read := Read(arg.value, v.value);
        value := Some(read);
      }
      var issues := Issues(s, value);
      if issues == [] {
        if WellFormed(s) { OutputAccepted(s, value); }
        return Ok(Output(s, value)), 1;
      }
      if arg.Some? {
        result, attempts := RepairAndRetry(rt, s, arg.value, issues, maxDepth, v.value);
      } else {
        result, attempts := Err(Invalid(issues)), 1;
      }
    }

    /** The argument was refused: it is repaired on a clone and parsed again, unless nothing was converted. */
    method RepairAndRetry(rt: Runtime, s: Schema, arg: Slot, issues: seq<Issue>, maxDepth: int, ghost v: Json)
        returns (result: Result<Option<Json>, Failure>, attempts: nat)
      requires Stands(heap, arg, v) && maxDepth > 0 && issues == Issues(s, Some(v)) != []
      modifies this
      ensures old(heap) <= heap && attempts <= maxDepth
      ensures result.Ok? && WellFormed(s) ==> Issues(s, result.value) == []
      ensures IsTree(old(heap), arg, v) ==> Attempted(result, attempts) == Parse(rt, s, Some(v), maxDepth)
      decreases maxDepth, 0
    {
      ghost var tree := IsTree(heap, arg, v);
      var root, fixed, after := RepairClone(rt, arg, issues, v);
      if !fixed {
        if tree { ParseAfterIssues(rt, s, v, maxDepth, false, after, Attempted(Err(Invalid(issues)), 0)); }
        return Err(Invalid(issues)), 1;
      }
      result, attempts := ParseWithTypeConversion(rt, s, Some(root), maxDepth - 1, Some(after));
      if tree { ParseAfterIssues(rt, s, v, maxDepth, true, after, Attempted(result, attempts)); }
      attempts := attempts + 1;
    }
  }

  lemma KnownMore(slots: seq<Slot>, k: nat, memo: map<nat, nat>, memo': map<nat, nat>)
    requires k < |slots| && Known(slots[..k], memo) && Known([slots[k]], memo')
    requires forall id :: id in memo ==> id in memo' && memo'[id] == memo[id]
    ensures Known(slots[..k + 1], memo') && MovedAll(slots[..k + 1], memo') == MovedAll(slots[..k], memo) + [Moved(slots[k], memo')]
  {
    assert slots[k] in [slots[k]];
    forall i | 0 <= i < k ensures Moved(slots[i], memo') == Moved(slots[i], memo) { assert slots[..k][i] in slots[..k]; }
    assert slots[..k + 1] == slots[..k] + [slots[k]];
  }
}
