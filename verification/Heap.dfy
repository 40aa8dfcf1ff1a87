/** Objects and arrays over the shared transition tree (src/shape/obj.c, src/shape/arr.c,
    src/shape/value.c): each object behaves as its own dictionary, and every reference
    count is the number of cells that hold the container. */
module Heap {
  import opened Bytes
  import opened Values
  import opened Shapes

  /** The capacity of an object is the number of its slots. */
  datatype ObjRec = ObjRec(refcount: int, shape: nat, slots: seq<Value>)

  datatype ArrRec = ArrRec(refcount: int, items: seq<Value>, length: nat)

  datatype State = State(shapes: seq<Shape>, objs: seq<ObjRec>, arrs: seq<ArrRec>)

  // ---------------------------------------------------------------- what the state stands for

  ghost predicate ObjOk(shapes: seq<Shape>, o: ObjRec) {
    o.shape < |shapes| && |Path(shapes, o.shape)| <= |o.slots|
  }

  /** Cells behind the length are still undefined. */
  ghost predicate ArrOk(a: ArrRec) {
    a.length <= |a.items| && forall i :: a.length <= i < |a.items| ==> a.items[i] == VUndefined
  }

  ghost function DictOf(shapes: seq<Shape>, o: ObjRec): (d: Dict)
    requires ObjOk(shapes, o)
    ensures |d.keys| == |d.vals|
  {
    Dict(Path(shapes, o.shape), o.slots[..|Path(shapes, o.shape)|])
  }

  ghost predicate Formed(s: State) {
    && ShapesOk(s.shapes)
    && (forall o :: 0 <= o < |s.objs| ==> ObjOk(s.shapes, s.objs[o]))
    && (forall a :: 0 <= a < |s.arrs| ==> ArrOk(s.arrs[a]))
  }

  ghost function WorldOf(s: State): (w: World)
    requires Formed(s)
    ensures |w.dicts| == |s.objs| && |w.lists| == |s.arrs|
  {
    World(seq(|s.objs|, o requires 0 <= o < |s.objs| && ObjOk(s.shapes, s.objs[o]) => DictOf(s.shapes, s.objs[o])),
          seq(|s.arrs|, a requires 0 <= a < |s.arrs| && ArrOk(s.arrs[a]) => s.arrs[a].items[..s.arrs[a].length]))
  }

  /** Every reference count is the number of cells holding the container. */
  ghost predicate Counted(s: State)
    requires Formed(s)
  {
    && (forall o :: 0 <= o < |s.objs| ==> s.objs[o].refcount == Holders(WorldOf(s), ToObj(o)))
    && (forall a :: 0 <= a < |s.arrs| ==> s.arrs[a].refcount == Holders(WorldOf(s), ToArr(a)))
  }

  ghost predicate StateOk(s: State) {
    Formed(s) && WorldOk(WorldOf(s)) && Counted(s)
  }

  lemma WorldAt(s: State)
    requires Formed(s)
    ensures forall o :: 0 <= o < |s.objs| ==> ObjOk(s.shapes, s.objs[o]) && WorldOf(s).dicts[o] == DictOf(s.shapes, s.objs[o])
    ensures forall a :: 0 <= a < |s.arrs| ==> s.arrs[a].length <= |s.arrs[a].items| && WorldOf(s).lists[a] == s.arrs[a].items[..s.arrs[a].length]
  {
    hide ShapesOk;
    hide DictOf;
  }

  // ---------------------------------------------------------------- containers nobody holds

  lemma {:induction false} NotCounted(w: World, vals: seq<Value>, r: Ref)
    requires AllInWorld(w, vals) && (if r.ToObj? then r.o >= |w.dicts| else r.a >= |w.lists|)
    ensures Count(vals, r) == 0
    decreases |vals|
  {
    if vals != [] {
      NotCounted(w, vals[..|vals| - 1], r);
      assert InWorld(w, vals[|vals| - 1]);
    }
  }

  lemma {:induction false} NotInDicts(w: World, ds: seq<Dict>, r: Ref)
    requires (forall o :: 0 <= o < |ds| ==> AllInWorld(w, ds[o].vals)) && (if r.ToObj? then r.o >= |w.dicts| else r.a >= |w.lists|)
    ensures CountDicts(ds, r) == 0
    decreases |ds|
  {
    hide AllInWorld;
    hide Count;
    if ds != [] {
      NotInDicts(w, ds[..|ds| - 1], r);
      NotCounted(w, ds[|ds| - 1].vals, r);
    }
  }

  lemma {:induction false} NotInLists(w: World, ls: seq<seq<Value>>, r: Ref)
    requires (forall a :: 0 <= a < |ls| ==> AllInWorld(w, ls[a])) && (if r.ToObj? then r.o >= |w.dicts| else r.a >= |w.lists|)
    ensures CountLists(ls, r) == 0
    decreases |ls|
  {
    hide AllInWorld;
    hide Count;
    if ls != [] {
      NotInLists(w, ls[..|ls| - 1], r);
      NotCounted(w, ls[|ls| - 1], r);
    }
  }

  /** A container that does not exist yet is held nowhere. */
  lemma NobodyHolds(w: World, r: Ref)
    requires WorldOk(w) && (if r.ToObj? then r.o >= |w.dicts| else r.a >= |w.lists|)
    ensures Holders(w, r) == 0
  {
    hide AllInWorld;
    hide CountDicts;
    hide CountLists;
    NotInDicts(w, w.dicts, r);
    NotInLists(w, w.lists, r);
  }

  // ---------------------------------------------------------------- one step

  /** The new counts: one more for what is written, one less for what is replaced. */
  ghost predicate Recounted(s: State, t: State, gained: Value, lost: Value) {
    && |s.objs| <= |t.objs| && |s.arrs| <= |t.arrs|
    && (forall o :: 0 <= o < |t.objs| ==>
          t.objs[o].refcount == (if o < |s.objs| then s.objs[o].refcount else 0) + One(gained, ToObj(o)) - One(lost, ToObj(o)))
    && (forall a :: 0 <= a < |t.arrs| ==>
          t.arrs[a].refcount == (if a < |s.arrs| then s.arrs[a].refcount else 0) + One(gained, ToArr(a)) - One(lost, ToArr(a)))
  }

  /** A step that changes the world as it should, and the counts with it, keeps the state sound. */
  lemma StepDone(s: State, t: State, op: Op)
    requires StateOk(s) && Formed(t) && OpOk(WorldOf(s), op) && WorldOf(t) == StepWorld(WorldOf(s), op)
    requires Recounted(s, t, Written(op), Replaced(WorldOf(s), op))
    ensures StateOk(t)
  {
    hide Formed;
    hide WorldOf;
    hide WorldOk;
    hide OpOk;
    hide StepWorld;
    hide Holders;
    hide One;
    hide Written;
    hide Replaced;
    var w := WorldOf(s);
    StepKeepsWorld(w, op);
    forall o | 0 <= o < |t.objs| ensures t.objs[o].refcount == Holders(WorldOf(t), ToObj(o)) {
      StepCounts(w, op, ToObj(o));
      if o >= |s.objs| {
        NobodyHolds(w, ToObj(o));
      }
    }
    forall a | 0 <= a < |t.arrs| ensures t.arrs[a].refcount == Holders(WorldOf(t), ToArr(a)) {
      StepCounts(w, op, ToArr(a));
      if a >= |s.arrs| {
        NobodyHolds(w, ToArr(a));
      }
    }
  }

  /** The same shapes for what was there, perhaps more of them. */
  ghost predicate ShapesKept(a: seq<Shape>, b: seq<Shape>) {
    && ShapesOk(b) && |a| <= |b|
    && forall k :: 0 <= k < |a| ==> Path(b, k) == Path(a, k) && b[k].slotCount == a[k].slotCount
  }

  /** All containers but object `o` look as before. */
  ghost predicate OnlyObj(s: State, t: State, o: nat) {
    && |t.objs| == |s.objs| && |t.arrs| == |s.arrs| && o < |s.objs|
    && (forall p :: 0 <= p < |s.objs| && p != o ==> t.objs[p].shape == s.objs[p].shape && t.objs[p].slots == s.objs[p].slots)
    && (forall a :: 0 <= a < |s.arrs| ==> t.arrs[a].items == s.arrs[a].items && t.arrs[a].length == s.arrs[a].length)
  }

  lemma DictKept(a: seq<Shape>, b: seq<Shape>, o: ObjRec, p: ObjRec)
    requires ShapesKept(a, b) && ObjOk(a, o) && p.shape == o.shape && p.slots == o.slots
    ensures ObjOk(b, p) && DictOf(b, p) == DictOf(a, o)
  {
    hide Path;
    hide ShapesOk;
  }

  /** Setting a key changes one dictionary. */
  lemma SetKeyWorld(s: State, t: State, o: nat, key: bytes, v: Value)
    requires Formed(s) && ShapesKept(s.shapes, t.shapes) && OnlyObj(s, t, o) && WorldOk(WorldOf(s)) && InWorld(WorldOf(s), v)
    requires ObjOk(t.shapes, t.objs[o]) && DictOf(t.shapes, t.objs[o]) == DictSet(DictOf(s.shapes, s.objs[o]), key, v)
    ensures Formed(t) && WorldOf(t) == StepWorld(WorldOf(s), SetKey(o, key, v))
  {
    hide ShapesKept;
    hide DictOf;
    hide ObjOk;
    hide DictSet;
    hide InWorld;
    hide WorldOk;
    WorldAt(s);
    var w, u := WorldOf(s), StepWorld(WorldOf(s), SetKey(o, key, v));
    forall p | 0 <= p < |t.objs| ensures ObjOk(t.shapes, t.objs[p]) && DictOf(t.shapes, t.objs[p]) == u.dicts[p] {
      if p != o {
        DictKept(s.shapes, t.shapes, s.objs[p], t.objs[p]);
      }
    }
    KeptOk(s.shapes, t.shapes);
    WorldAt(t);
    assert WorldOf(t).dicts == u.dicts;
    assert WorldOf(t).lists == u.lists;
  }

  lemma KeptOk(a: seq<Shape>, b: seq<Shape>)
    requires ShapesKept(a, b)
    ensures ShapesOk(b)
  {
    hide ShapesOk;
    hide Path;
  }

  /** Overwriting the slot of a key that is there. */
  lemma Overwritten(shapes: seq<Shape>, o: ObjRec, p: ObjRec, slot: nat, key: bytes, v: Value)
    requires ObjOk(shapes, o) && slot < |Path(shapes, o.shape)| && IndexOf(Path(shapes, o.shape), key) == slot
    requires p.shape == o.shape && p.slots == o.slots[slot := v]
    ensures ObjOk(shapes, p) && DictOf(shapes, p) == DictSet(DictOf(shapes, o), key, v)
    ensures DictGet(DictOf(shapes, o), key) == Some(o.slots[slot])
  {
    hide IndexOf;
    hide Path;
  }

  /** Putting a new key behind the others. */
  lemma Appended(a: seq<Shape>, b: seq<Shape>, o: ObjRec, p: ObjRec, key: bytes, v: Value)
    requires ObjOk(a, o) && p.shape < |b|
    requires key !in Path(a, o.shape) && Path(b, p.shape) == Path(a, o.shape) + [key]
    requires |p.slots| > |Path(a, o.shape)| && p.slots[..|Path(a, o.shape)|] == o.slots[..|Path(a, o.shape)|]
    requires p.slots[|Path(a, o.shape)|] == v
    ensures ObjOk(b, p) && DictOf(b, p) == DictSet(DictOf(a, o), key, v)
    ensures DictGet(DictOf(a, o), key) == None
  {
    hide IndexOf;
    hide Path;
    var n := |Path(a, o.shape)|;
    assert p.slots[..n + 1] == p.slots[..n] + [v];
  }

  ghost predicate OnlyArr(s: State, t: State, a: nat) {
    && t.shapes == s.shapes && |t.objs| == |s.objs| && |t.arrs| == |s.arrs| && a < |s.arrs|
    && (forall p :: 0 <= p < |s.objs| ==> t.objs[p].shape == s.objs[p].shape && t.objs[p].slots == s.objs[p].slots)
    && (forall b :: 0 <= b < |s.arrs| && b != a ==> t.arrs[b].items == s.arrs[b].items && t.arrs[b].length == s.arrs[b].length)
  }

  lemma SetItemWorld(s: State, t: State, a: nat, index: int, v: Value)
    requires Formed(s) && OnlyArr(s, t, a) && WorldOk(WorldOf(s)) && InWorld(WorldOf(s), v) && ArrOk(t.arrs[a])
    requires s.arrs[a].length <= |s.arrs[a].items|
    requires t.arrs[a].items[..t.arrs[a].length] == ListSet(s.arrs[a].items[..s.arrs[a].length], index, v)
    ensures Formed(t) && WorldOf(t) == StepWorld(WorldOf(s), SetItem(a, index, v))
  {
    hide ShapesOk;
    hide Path;
    hide ListSet;
    hide InWorld;
    hide WorldOk;
    WorldAt(s);
    var u := StepWorld(WorldOf(s), SetItem(a, index, v));
    forall p | 0 <= p < |t.objs| ensures ObjOk(t.shapes, t.objs[p]) && DictOf(t.shapes, t.objs[p]) == u.dicts[p] {
      assert ObjOk(s.shapes, s.objs[p]);
    }
    forall b | 0 <= b < |t.arrs| ensures ArrOk(t.arrs[b]) && t.arrs[b].items[..t.arrs[b].length] == u.lists[b] {
      assert ArrOk(s.arrs[b]);
    }
    WorldAt(t);
    assert WorldOf(t).dicts == u.dicts;
    assert WorldOf(t).lists == u.lists;
  }

  /** Writing a cell, behind the old length or within it. */
  lemma CellWritten(a: ArrRec, b: ArrRec, index: nat, v: Value)
    requires ArrOk(a) && b.length == (if index < a.length then a.length else index + 1) && b.length <= |b.items| && |a.items| <= |b.items|
    requires b.items[index] == v
    requires forall i :: 0 <= i < |b.items| && i != index ==> b.items[i] == if i < |a.items| then a.items[i] else VUndefined
    ensures ArrOk(b) && b.items[..b.length] == ListSet(a.items[..a.length], index, v)
  {
    var l := a.items[..a.length];
    assert |b.items[..b.length]| == |ListSet(l, index, v)|;
    forall i | 0 <= i < b.length ensures b.items[..b.length][i] == ListSet(l, index, v)[i] {
    }
  }

  // ---------------------------------------------------------------- the operations

  class Heap {
    var shapes: seq<Shape>
    var objs: seq<ObjRec>
    var arrs: seq<ArrRec>

    ghost function St(): State
      reads this
    {
      State(shapes, objs, arrs)
    }

    ghost predicate Valid()
      reads this
    {
      StateOk(St())
    }

    ghost function World(): World
      reads this
      requires Valid()
    {
      WorldOf(St())
    }

    /** `shape_root`, once. */
    constructor ()
      ensures Valid() && World() == Values.World([], [])
    {
      shapes, objs, arrs := [ROOT], [], [];
      new;
      RootOk();
      assert WorldOf(St()).dicts == [];
      assert WorldOf(St()).lists == [];
    }

    /** `find_transition_no_lock`. */
    method FindTransition(s: nat, key: bytes) returns (r: Option<nat>)
      requires s < |shapes|
      ensures r.None? ==> NoTransition(shapes, s, key)
      ensures r.Some? ==> exists i :: 0 <= i < |shapes[s].transitions| && shapes[s].transitions[i] == Transition(key, r.value)
    {
      var ts := shapes[s].transitions;
      var i := 0;
      while i < |ts|
        invariant 0 <= i <= |ts|
        invariant forall j :: 0 <= j < i ==> ts[j].key != key
      {
        if ts[i].key == key {
          assert ts[i] == Transition(key, ts[i].next);
          return Some(ts[i].next);
        }
        i := i + 1;
      }
      r := None;
    }

    /** `shape_transition_add`: the shape with one more key, shared if it exists. */
    method TransitionAdd(s: nat, key: bytes) returns (c: nat)
      requires ShapesOk(shapes) && s < |shapes| && key !in Path(shapes, s)
      modifies this`shapes
      ensures ShapesKept(old(shapes), shapes) && c < |shapes| && Path(shapes, c) == Path(old(shapes), s) + [key]
    {
      hide ShapesOk;
      hide Path;
      hide Extended;
      var existing := FindTransition(s, key);
      if existing.Some? {
        ghost var i :| 0 <= i < |shapes[s].transitions| && shapes[s].transitions[i] == Transition(key, existing.value);
        TransitionPath(shapes, s, i);
        return existing.value;
      }
      ExtendedOk(shapes, s, key);
      c := |shapes|;
      var x := shapes[s];
      ExtendedForms(shapes, s, key);
      shapes := shapes + [Shape(s, Some(key), x.slotCount, x.slotCount + 1, [])];
      shapes := shapes[s := x.(transitions := [Transition(key, c)] + x.transitions)];
    }

    /** `shape_lookup_slot`: walks towards the root. */
    method LookupSlot(s: nat, key: bytes) returns (slot: int)
      requires ShapesOk(shapes) && s < |shapes|
      ensures slot == IndexOf(Path(shapes, s), key)
    {
      hide ShapesOk;
      hide Path;
      hide IndexOf;
      PathOk(shapes, s);
      PathForms(shapes, s);
      IndexForms([], [], key);
      var cur: nat := s;
      while shapes[cur].lastKey.Some?
        invariant cur < |shapes|
        invariant shapes[cur].lastKey.Some? <==> cur > 0
        invariant cur == 0 ==> Path(shapes, cur) == []
        invariant IndexOf(Path(shapes, cur), key) == IndexOf(Path(shapes, s), key)
        decreases cur
      {
        PathForms(shapes, cur);
        var p := shapes[cur].parent;
        PathOk(shapes, p);
        IndexForms(Path(shapes, p), [shapes[cur].lastKey.value], key);
        if shapes[cur].lastKey.value == key {
          return shapes[cur].lastSlot;
        }
        PathForms(shapes, p);
        cur := p;
      }
      slot := -1;
    }

    /** `shape_get_key_at`: the key at that position of the path; the root's missing key for
        slot -1, and a question mark for a slot the shape does not have. */
    method KeyOfSlot(s: nat, slot: int) returns (key: Option<bytes>)
      requires ShapesOk(shapes) && s < |shapes|
      ensures key == if 0 <= slot < |Path(shapes, s)| then Some(Path(shapes, s)[slot])
                     else if slot == -1 then None else Some([63])
    {
      hide ShapesOk;
      hide Path;
      ghost var path := Path(shapes, s);
      var cur: int := s;
      while cur >= 0
        invariant -1 <= cur < |shapes|
        invariant cur >= 0 ==> |Path(shapes, cur)| <= |path|
        invariant cur >= 0 && 0 <= slot < |path| ==> slot < |Path(shapes, cur)| && Path(shapes, cur)[slot] == path[slot]
        invariant cur == -1 ==> !(-1 <= slot < |path|)
        decreases cur
      {
        PathForms(shapes, cur);
        PathOk(shapes, cur);
        if cur > 0 {
          PathOk(shapes, shapes[cur].parent);
        }
        if shapes[cur].lastSlot == slot {
          return shapes[cur].lastKey;
        }
        RootParent(shapes, cur);
        cur := shapes[cur].parent;
      }
      key := Some([63]);
    }

    /** `value_retain`. */
    method Retain(v: Value)
      requires v.VObj? && v.obj.Some? ==> v.obj.value < |objs|
      requires v.VArr? && v.arr.Some? ==> v.arr.value < |arrs|
      modifies this`objs, this`arrs
      ensures |objs| == |old(objs)| && |arrs| == |old(arrs)|
      ensures forall o :: 0 <= o < |objs| ==> objs[o] == old(objs)[o].(refcount := old(objs)[o].refcount + One(v, ToObj(o)))
      ensures forall a :: 0 <= a < |arrs| ==> arrs[a] == old(arrs)[a].(refcount := old(arrs)[a].refcount + One(v, ToArr(a)))
    {
      if v.VObj? && v.obj.Some? {
        var o := v.obj.value;
        objs := objs[o := objs[o].(refcount := objs[o].refcount + 1)];
      } else if v.VArr? && v.arr.Some? {
        var a := v.arr.value;
        arrs := arrs[a := arrs[a].(refcount := arrs[a].refcount + 1)];
      }
    }

    /** `value_release`; a container nobody holds is not freed before its arena. */
    method Release(v: Value)
      requires v.VObj? && v.obj.Some? ==> v.obj.value < |objs|
      requires v.VArr? && v.arr.Some? ==> v.arr.value < |arrs|
      modifies this`objs, this`arrs
      ensures |objs| == |old(objs)| && |arrs| == |old(arrs)|
      ensures forall o :: 0 <= o < |objs| ==> objs[o] == old(objs)[o].(refcount := old(objs)[o].refcount - One(v, ToObj(o)))
      ensures forall a :: 0 <= a < |arrs| ==> arrs[a] == old(arrs)[a].(refcount := old(arrs)[a].refcount - One(v, ToArr(a)))
    {
      if v.VObj? && v.obj.Some? {
        var o := v.obj.value;
        objs := objs[o := objs[o].(refcount := objs[o].refcount - 1)];
      } else if v.VArr? && v.arr.Some? {
        var a := v.arr.value;
        arrs := arrs[a := arrs[a].(refcount := arrs[a].refcount - 1)];
      }
    }

    /** `obj_new`. */
    method ObjNew() returns (o: nat)
      requires Valid()
      modifies this
      ensures Valid() && o == |old(World()).dicts| && World() == StepWorld(old(World()), NewObj)
    {
      hide WorldOk;
      hide StateOk;
      StateParts(St());
      ghost var s := St();
      o := |objs|;
      objs := objs + [ObjRec(0, 0, [])];
      NewObjWorld(s, St());
      StepDone(s, St(), NewObj);
    }

    /** `arr_new`. */
    method ArrNew() returns (a: nat)
      requires Valid()
      modifies this
      ensures Valid() && a == |old(World()).lists| && World() == StepWorld(old(World()), NewArr)
    {
      hide WorldOk;
      hide StateOk;
      StateParts(St());
      ghost var s := St();
      a := |arrs|;
      arrs := arrs + [ArrRec(0, [], 0)];
      NewArrWorld(s, St());
      StepDone(s, St(), NewArr);
    }

    /** `obj_ensure_capacity`. */
    method EnsureSlots(o: nat, needed: nat)
      requires o < |objs|
      modifies this`objs
      ensures |objs| == |old(objs)| && forall p :: 0 <= p < |objs| && p != o ==> objs[p] == old(objs)[p]
      ensures objs[o].shape == old(objs)[o].shape && objs[o].refcount == old(objs)[o].refcount
      ensures |objs[o].slots| >= needed && |objs[o].slots| >= |old(objs)[o].slots|
      ensures objs[o].slots[..|old(objs)[o].slots|] == old(objs)[o].slots
    {
      var slots := Enlarged(objs[o].slots, needed);
      objs := objs[o := objs[o].(slots := slots)];
    }

    /** `arr_ensure_capacity`. */
    method EnsureItems(a: nat, needed: nat)
      requires a < |arrs|
      modifies this`arrs
      ensures |arrs| == |old(arrs)| && forall b :: 0 <= b < |arrs| && b != a ==> arrs[b] == old(arrs)[b]
      ensures arrs[a].length == old(arrs)[a].length && arrs[a].refcount == old(arrs)[a].refcount
      ensures |arrs[a].items| >= needed && |arrs[a].items| >= |old(arrs)[a].items|
      ensures forall i :: 0 <= i < |arrs[a].items| ==>
                arrs[a].items[i] == if i < |old(arrs)[a].items| then old(arrs)[a].items[i] else VUndefined
    {
      var items := Enlarged(arrs[a].items, needed);
      arrs := arrs[a := arrs[a].(items := items)];
    }

    /** The branch of `obj_set` for a key the object has. */
    method Overwrite(o: nat, slot: nat, key: bytes, v: Value)
      requires Valid() && OpOk(World(), SetKey(o, key, v)) && o < |objs| && objs[o].shape < |shapes|
      requires IndexOf(Path(shapes, objs[o].shape), key) == slot
      modifies this
      ensures Valid() && World() == StepWorld(old(World()), SetKey(o, key, v))
    {
      hide WorldOk;
      hide StateOk;
      hide ShapesOk;
      hide Path;
      hide IndexOf;
      hide Recounted;
      hide ShapesKept;
      hide Replaced;
      hide DictOf;
      hide DictSet;
      hide DictGet;
      hide StepWorld;
      hide One;
      hide InWorld;
      ghost var s := St();
      StateParts(s);
      WorldAt(s);
      ValueInside(s, v);
      var was := objs[o].slots[slot];
      SlotInside(s, o, slot);
      Retain(v);
      objs := objs[o := objs[o].(slots := objs[o].slots[slot := v])];
      Release(was);
      Overwritten(shapes, s.objs[o], objs[o], slot, key, v);
      SameShapes(shapes);
      SetKeyWorld(s, St(), o, key, v);
      ReplacedKey(WorldOf(s), o, key, v, was);
      CountsMoved(s, St(), v, was);
      StepDone(s, St(), SetKey(o, key, v));
    }

    /** Moves the object to the shape with one more key and makes room for its value. */
    method MakeRoom(o: nat, key: bytes) returns (at: nat)
      requires ShapesOk(shapes) && o < |objs| && ObjOk(shapes, objs[o]) && key !in Path(shapes, objs[o].shape)
      modifies this`shapes, this`objs
      ensures ShapesKept(old(shapes), shapes) && at == |Path(old(shapes), old(objs)[o].shape)|
      ensures |objs| == |old(objs)| && forall p :: 0 <= p < |objs| && p != o ==> objs[p] == old(objs)[p]
      ensures objs[o].refcount == old(objs)[o].refcount && objs[o].shape < |shapes| && at < |objs[o].slots|
      ensures Path(shapes, objs[o].shape) == Path(old(shapes), old(objs)[o].shape) + [key]
      ensures at <= |old(objs)[o].slots| && objs[o].slots[..at] == old(objs)[o].slots[..at]
    {
      hide ShapesOk;
      hide Path;
      ghost var before := shapes;
      var newShape := TransitionAdd(objs[o].shape, key);
      PathLen(before, shapes, newShape);
      objs := objs[o := objs[o].(shape := newShape)];
      EnsureSlots(o, shapes[newShape].slotCount);
      at := shapes[objs[o].shape].slotCount - 1;
      objs := objs[o := objs[o].(slots := objs[o].slots[at := VUndefined])];
    }

    /** The branch of `obj_set` for a new key. */
    method AddKey(o: nat, key: bytes, v: Value)
      requires Valid() && OpOk(World(), SetKey(o, key, v)) && o < |objs| && objs[o].shape < |shapes|
      requires key !in Path(shapes, objs[o].shape)
      modifies this
      ensures Valid() && World() == StepWorld(old(World()), SetKey(o, key, v))
    {
      hide WorldOk;
      hide StateOk;
      hide ShapesOk;
      hide Path;
      hide IndexOf;
      hide Recounted;
      hide ShapesKept;
      hide Replaced;
      hide DictOf;
      hide DictSet;
      hide DictGet;
      hide StepWorld;
      hide One;
      hide InWorld;
      ghost var s := St();
      StateParts(s);
      WorldAt(s);
      ValueInside(s, v);
      var at := MakeRoom(o, key);
      Retain(v);
      objs := objs[o := objs[o].(slots := objs[o].slots[at := v])];
      assert objs[o].slots[..at] == s.objs[o].slots[..at];
      NothingIsHeld();
      Appended(s.shapes, shapes, s.objs[o], objs[o], key, v);
      SetKeyWorld(s, St(), o, key, v);
      ReplacedKey(WorldOf(s), o, key, v, VUndefined);
      CountsMoved(s, St(), v, VUndefined);
      StepDone(s, St(), SetKey(o, key, v));
    }

    /** `obj_set`. */
    method ObjSet(o: nat, key: bytes, v: Value)
      requires Valid() && OpOk(World(), SetKey(o, key, v))
      modifies this
      ensures Valid() && World() == StepWorld(old(World()), SetKey(o, key, v))
    {
      hide WorldOk;
      hide StateOk;
      hide ShapesOk;
      hide Path;
      hide StepWorld;
      hide InWorld;
      StateParts(St());
      WorldAt(St());
      var slot := LookupSlot(objs[o].shape, key);
      if slot >= 0 {
        Overwrite(o, slot, key, v);
      } else {
        AddKey(o, key, v);
      }
    }

    /** `arr_set`; a negative index is ignored. */
    method ArrSet(a: nat, index: int, v: Value)
      requires Valid() && OpOk(World(), SetItem(a, index, v))
      modifies this
      ensures Valid() && World() == StepWorld(old(World()), SetItem(a, index, v))
    {
      hide WorldOk;
      hide StateOk;
      hide ShapesOk;
      hide Recounted;
      hide StepWorld;
      hide One;
      hide InWorld;
      ghost var s := St();
      StateParts(s);
      WorldAt(s);
      ValueInside(s, v);
      if index < 0 {
        NothingSet(WorldOf(s), a, index, v);
        return;
      }
      if index >= arrs[a].length {
        EnsureItems(a, index + 1);
        arrs := arrs[a := arrs[a].(length := index + 1)];
      }
      var was := arrs[a].items[index];
      CellInside(s, a, index, was);
      Retain(v);
      arrs := arrs[a := arrs[a].(items := arrs[a].items[index := v])];
      Release(was);
      CellWritten(s.arrs[a], arrs[a], index, v);
      SetItemWorld(s, St(), a, index, v);
      ReplacedItem(s, a, index, v, was);
      CountsMoved(s, St(), v, was);
      StepDone(s, St(), SetItem(a, index, v));
    }

    /** `obj_get`. */
    method ObjGet(o: nat, key: bytes) returns (r: Option<Value>)
      requires Valid() && o < |World().dicts|
      ensures DictOk(World().dicts[o]) && r == DictGet(World().dicts[o], key)
    {
      hide ShapesOk;
      hide Path;
      hide IndexOf;
      hide WorldOk;
      StateParts(St());
      WorldAt(St());
      DictIsOk(World(), o);
      PathOk(shapes, objs[o].shape);
      var slot := LookupSlot(objs[o].shape, key);
      r := if slot < 0 then None else Some(objs[o].slots[slot]);
    }

    /** `jsonv_obj_length`. */
    method ObjLength(o: nat) returns (n: nat)
      requires Valid() && o < |World().dicts|
      ensures DictOk(World().dicts[o]) && n == |World().dicts[o].keys| == |AsMap(World().dicts[o])|
    {
      hide ShapesOk;
      hide Path;
      hide WorldOk;
      hide AsMap;
      StateParts(St());
      WorldAt(St());
      DictIsOk(World(), o);
      MapForms(World().dicts[o]);
      PathOk(shapes, objs[o].shape);
      n := shapes[objs[o].shape].slotCount;
    }

    /** `jsonv_obj_key_at` and `jsonv_obj_val_at`: members in the order of first setting. */
    method ObjAt(o: nat, index: int) returns (key: Option<bytes>, v: Value)
      requires Valid() && o < |World().dicts|
      ensures var d := World().dicts[o];
              if 0 <= index < |d.keys| then index < |d.vals| && key == Some(d.keys[index]) && v == d.vals[index]
              else key == None && v == VUndefined
    {
      hide ShapesOk;
      hide Path;
      hide WorldOk;
      StateParts(St());
      WorldAt(St());
      DictIsOk(World(), o);
      PathOk(shapes, objs[o].shape);
      if index < 0 || index >= shapes[objs[o].shape].slotCount {
        return None, VUndefined;
      }
      key := KeyOfSlot(objs[o].shape, index);
      v := objs[o].slots[index];
    }

    /** `jsonv_arr_length`. */
    method ArrLength(a: nat) returns (n: nat)
      requires Valid() && a < |World().lists|
      ensures n == |World().lists[a]|
    {
      hide ShapesOk;
      hide Path;
      hide WorldOk;
      StateParts(St());
      WorldAt(St());
      n := arrs[a].length;
    }

    /** `arr_get`. */
    method ArrGet(a: nat, index: int) returns (r: Option<Value>)
      requires Valid() && a < |World().lists|
      ensures r == if 0 <= index < |World().lists[a]| then Some(World().lists[a][index]) else None
    {
      hide ShapesOk;
      hide Path;
      hide WorldOk;
      StateParts(St());
      WorldAt(St());
      r := if index < 0 || index >= arrs[a].length then None else Some(arrs[a].items[index]);
    }
  }

  /** The array with room for `needed` cells: the capacity is doubled from 4 on. */
  method Enlarged(vals: seq<Value>, needed: nat) returns (r: seq<Value>)
    ensures |r| >= needed && |r| >= |vals|
    ensures forall i :: 0 <= i < |r| ==> r[i] == if i < |vals| then vals[i] else VUndefined
    ensures r[..|vals|] == vals
  {
    if |vals| >= needed {
      return vals;
    }
    var newcap := if |vals| > 0 then |vals| else 4;
    while newcap < needed
      invariant newcap > 0 && newcap >= |vals|
      decreases needed - newcap
    {
      newcap := newcap * 2;
    }
    r := vals + Undefined(newcap - |vals|);
  }

  lemma RootOk()
    ensures ShapesOk([ROOT])
  {
    assert ShapeOk([ROOT], 0);
  }

  lemma StateParts(s: State)
    requires StateOk(s)
    ensures Formed(s) && ShapesOk(s.shapes) && WorldOk(WorldOf(s))
    ensures forall o :: 0 <= o < |s.objs| ==> ObjOk(s.shapes, s.objs[o])
    ensures forall a :: 0 <= a < |s.arrs| ==> ArrOk(s.arrs[a])
  {
    hide ShapesOk;
    hide WorldOk;
    hide Counted;
    hide ArrOk;
    hide ObjOk;
  }

  lemma DictIsOk(w: World, o: nat)
    requires WorldOk(w) && o < |w.dicts|
    ensures DictOk(w.dicts[o])
  {
    hide DictOk;
  }

  lemma SameShapes(shapes: seq<Shape>)
    requires ShapesOk(shapes)
    ensures ShapesKept(shapes, shapes)
  {
    hide ShapesOk;
    hide Path;
  }

  lemma ExtendedForms(shapes: seq<Shape>, s: nat, key: bytes)
    requires s < |shapes|
    ensures var x := shapes[s];
            var grown := shapes + [Shape(s, Some(key), x.slotCount, x.slotCount + 1, [])];
            s < |grown| && grown[s := x.(transitions := [Transition(key, |shapes|)] + x.transitions)] == Extended(shapes, s, key)
  {
  }

  lemma IndexForms(keys: seq<bytes>, last: seq<bytes>, key: bytes)
    requires |last| <= 1
    ensures IndexOf([], key) == -1
    ensures |last| == 1 ==> IndexOf(keys + last, key) == if last[0] == key then |keys| else IndexOf(keys, key)
  {
    assert |last| == 1 ==> (keys + last)[..|keys|] == keys;
  }

  lemma PathLen(a: seq<Shape>, b: seq<Shape>, c: nat)
    requires ShapesKept(a, b) && c < |b|
    ensures b[c].slotCount == |Path(b, c)|
  {
    hide ShapesOk;
    hide Path;
    PathOk(b, c);
  }

  lemma ValueInside(s: State, v: Value)
    requires Formed(s) && InWorld(WorldOf(s), v)
    ensures v.VObj? && v.obj.Some? ==> v.obj.value < |s.objs|
    ensures v.VArr? && v.arr.Some? ==> v.arr.value < |s.arrs|
  {
    hide ShapesOk;
  }

  lemma SlotInside(s: State, o: nat, slot: nat)
    requires Formed(s) && WorldOk(WorldOf(s)) && o < |s.objs| && ObjOk(s.shapes, s.objs[o]) && slot < |Path(s.shapes, s.objs[o].shape)|
    ensures InWorld(WorldOf(s), s.objs[o].slots[slot])
    ensures var v := s.objs[o].slots[slot]; v.VObj? && v.obj.Some? ==> v.obj.value < |s.objs|
    ensures var v := s.objs[o].slots[slot]; v.VArr? && v.arr.Some? ==> v.arr.value < |s.arrs|
  {
    hide ShapesOk;
    hide Path;
    WorldAt(s);
    var d := WorldOf(s).dicts[o];
    assert AllInWorld(WorldOf(s), d.vals);
    assert d.vals[slot] == s.objs[o].slots[slot];
    ValueInside(s, d.vals[slot]);
  }

  lemma CellInside(s: State, a: nat, index: nat, was: Value)
    requires Formed(s) && WorldOk(WorldOf(s)) && a < |s.arrs| && ArrOk(s.arrs[a])
    requires if index < |s.arrs[a].items| then was == s.arrs[a].items[index] else was == VUndefined
    ensures was.VObj? && was.obj.Some? ==> was.obj.value < |s.objs|
    ensures was.VArr? && was.arr.Some? ==> was.arr.value < |s.arrs|
  {
    hide ShapesOk;
    WorldAt(s);
    if index < s.arrs[a].length {
      var l := WorldOf(s).lists[a];
      assert AllInWorld(WorldOf(s), l);
      assert l[index] == was;
      ValueInside(s, was);
    }
  }

  lemma ReplacedKey(w: World, o: nat, key: bytes, v: Value, was: Value)
    requires WorldOk(w) && OpOk(w, SetKey(o, key, v)) && |w.dicts[o].keys| == |w.dicts[o].vals|
    requires DictGet(w.dicts[o], key) == Some(was) || (DictGet(w.dicts[o], key) == None && was == VUndefined)
    ensures Replaced(w, SetKey(o, key, v)) == was && Written(SetKey(o, key, v)) == v
  {
    hide DictGet;
    hide WorldOk;
  }

  lemma ReplacedItem(s: State, a: nat, index: nat, v: Value, was: Value)
    requires Formed(s) && WorldOk(WorldOf(s)) && OpOk(WorldOf(s), SetItem(a, index, v)) && ArrOk(s.arrs[a])
    requires if index < |s.arrs[a].items| then was == s.arrs[a].items[index] else was == VUndefined
    ensures Replaced(WorldOf(s), SetItem(a, index, v)) == was && Written(SetItem(a, index, v)) == v
  {
    hide ShapesOk;
    hide WorldOk;
    WorldAt(s);
  }

  lemma NothingSet(w: World, a: nat, index: int, v: Value)
    requires index < 0 && WorldOk(w) && OpOk(w, SetItem(a, index, v))
    ensures StepWorld(w, SetItem(a, index, v)) == w
  {
    hide WorldOk;
    assert w.lists[a := w.lists[a]] == w.lists;
  }

  lemma NothingIsHeld()
    ensures forall r: Ref :: One(VUndefined, r) == 0
  {
  }

  lemma CountsMoved(s: State, t: State, gained: Value, lost: Value)
    requires |s.objs| == |t.objs| && |s.arrs| == |t.arrs|
    requires forall o :: 0 <= o < |t.objs| ==> t.objs[o].refcount == s.objs[o].refcount + One(gained, ToObj(o)) - One(lost, ToObj(o))
    requires forall a :: 0 <= a < |t.arrs| ==> t.arrs[a].refcount == s.arrs[a].refcount + One(gained, ToArr(a)) - One(lost, ToArr(a))
    ensures Recounted(s, t, gained, lost)
  {
  }

  lemma NewObjWorld(s: State, t: State)
    requires StateOk(s) && t == s.(objs := s.objs + [ObjRec(0, 0, [])])
    ensures Formed(t) && WorldOf(t) == StepWorld(WorldOf(s), NewObj)
    ensures Recounted(s, t, Written(NewObj), Replaced(WorldOf(s), NewObj))
  {
    hide WorldOk;
    hide Path;
    StateParts(s);
    PathForms(s.shapes, 0);
    hide ShapesOk;
    WorldAt(s);
    forall o | 0 <= o < |t.objs| ensures ObjOk(t.shapes, t.objs[o]) {
      if o < |s.objs| {
        assert ObjOk(s.shapes, s.objs[o]);
      }
    }
    WorldAt(t);
    assert WorldOf(t).dicts == WorldOf(s).dicts + [Dict([], [])];
    assert WorldOf(t).lists == WorldOf(s).lists;
  }

  lemma NewArrWorld(s: State, t: State)
    requires StateOk(s) && t == s.(arrs := s.arrs + [ArrRec(0, [], 0)])
    ensures Formed(t) && WorldOf(t) == StepWorld(WorldOf(s), NewArr)
    ensures Recounted(s, t, Written(NewArr), Replaced(WorldOf(s), NewArr))
  {
    hide WorldOk;
    hide Path;
    hide ShapesOk;
    StateParts(s);
    WorldAt(s);
    forall a | 0 <= a < |t.arrs| ensures ArrOk(t.arrs[a]) {
      if a < |s.arrs| {
        assert ArrOk(s.arrs[a]);
      }
    }
    WorldAt(t);
    assert WorldOf(t).dicts == WorldOf(s).dicts;
    assert WorldOf(t).lists == WorldOf(s).lists + [[]];
  }

  /** Objects that list the same keys in the same order have the same shape. */
  lemma SameKeysSameShape(s: State, o: nat, p: nat)
    requires StateOk(s) && o < |s.objs| && p < |s.objs| && WorldOf(s).dicts[o].keys == WorldOf(s).dicts[p].keys
    ensures s.objs[o].shape == s.objs[p].shape
  {
    hide ShapesOk;
    hide Path;
    hide WorldOk;
    StateParts(s);
    WorldAt(s);
    ShapeUnique(s.shapes, s.objs[o].shape, s.objs[p].shape);
  }

  // ---------------------------------------------------------------- whole runs

  ghost predicate RunOk(w: World, ops: seq<Op>)
    requires WorldOk(w)
    decreases |ops|
  {
    ops == [] || (OpOk(w, ops[0]) && (StepKeepsWorld(w, ops[0]); RunOk(StepWorld(w, ops[0]), ops[1..])))
  }

  ghost function RunWorld(w: World, ops: seq<Op>): World
    requires WorldOk(w) && RunOk(w, ops)
    decreases |ops|
  {
    if ops == [] then w else StepKeepsWorld(w, ops[0]); RunWorld(StepWorld(w, ops[0]), ops[1..])
  }

  /** Any interleaving of operations: every object is the dictionary and every array the
      list its own operations make it, and all counts are right at the end. */
  method Perform(h: Heap, ops: seq<Op>)
    requires h.Valid() && WorldOk(h.World()) && RunOk(h.World(), ops)
    modifies h
    ensures h.Valid() && h.World() == RunWorld(old(h.World()), ops)
  {
    hide StateOk;
    hide WorldOk;
    hide OpOk;
    hide StepWorld;
    var i := 0;
    assert ops[0..] == ops;
    while i < |ops|
      invariant 0 <= i <= |ops| && h.Valid() && WorldOk(h.World())
      invariant RunOk(h.World(), ops[i..])
      invariant RunWorld(h.World(), ops[i..]) == RunWorld(old(h.World()), ops)
    {
      RunNext(h.World(), ops[i..]);
      assert ops[i..][1..] == ops[i + 1..];
      PerformOne(h, ops[i]);
      i := i + 1;
    }
    RunEnd(h.World(), ops[i..]);
  }

  lemma RunNext(w: World, ops: seq<Op>)
    requires WorldOk(w) && RunOk(w, ops) && ops != []
    ensures OpOk(w, ops[0]) && WorldOk(StepWorld(w, ops[0])) && RunOk(StepWorld(w, ops[0]), ops[1..])
    ensures RunWorld(w, ops) == RunWorld(StepWorld(w, ops[0]), ops[1..])
  {
    hide WorldOk;
    hide OpOk;
    hide StepWorld;
    if OpOk(w, ops[0]) {
      StepKeepsWorld(w, ops[0]);
    }
  }

  lemma RunEnd(w: World, ops: seq<Op>)
    requires WorldOk(w) && RunOk(w, ops) && ops == []
    ensures RunWorld(w, ops) == w
  {
    hide WorldOk;
  }

  method PerformOne(h: Heap, op: Op)
    requires h.Valid() && WorldOk(h.World()) && OpOk(h.World(), op)
    modifies h
    ensures h.Valid() && h.World() == StepWorld(old(h.World()), op)
  {
    hide StateOk;
    hide WorldOk;
    hide StepWorld;
    match op {
      case NewObj => var o := h.ObjNew();
      case NewArr => var a := h.ArrNew();
      case SetKey(o, key, v) => h.ObjSet(o, key, v);
      case SetItem(a, index, v) => h.ArrSet(a, index, v);
    }
  }

  /** The value last set for the key in the object, if any. */
  ghost function LastSet(ops: seq<Op>, o: nat, key: bytes): Option<Value> {
    if ops == [] then None
    else
      var last := ops[|ops| - 1];
      if last.SetKey? && last.obj == o && last.key == key then Some(last.val) else LastSet(ops[..|ops| - 1], o, key)
  }

  lemma LastSetCons(op: Op, ops: seq<Op>, o: nat, key: bytes)
    ensures LastSet([op] + ops, o, key)
         == if LastSet(ops, o, key).Some? then LastSet(ops, o, key)
            else if op.SetKey? && op.obj == o && op.key == key then Some(op.val) else None
    decreases |ops|
  {
    var all := [op] + ops;
    if ops == [] {
      assert all[..0] == [];
    } else {
      LastSetCons(op, ops[..|ops| - 1], o, key);
      assert all[..|all| - 1] == [op] + ops[..|ops| - 1];
    }
  }

  /** After any run an object yields, for each key, the value last set for it in that
      object, or what it held before the run. */
  lemma {:induction false} LastSetWins(w: World, ops: seq<Op>, o: nat, key: bytes)
    requires WorldOk(w) && RunOk(w, ops) && o < |w.dicts|
    ensures var r := RunWorld(w, ops);
            && o < |r.dicts| && DictOk(r.dicts[o]) && DictOk(w.dicts[o])
            && DictGet(r.dicts[o], key) == if LastSet(ops, o, key).Some? then LastSet(ops, o, key) else DictGet(w.dicts[o], key)
    decreases |ops|
  {
    hide WorldOk;
    hide OpOk;
    hide DictGet;
    hide DictOk;
    hide LastSet;
    hide RunOk;
    hide RunWorld;
    hide StepWorld;
    DictIsOk(w, o);
    if ops == [] {
      RunEnd(w, ops);
      LastSetNone(o, key);
    } else {
      var op := ops[0];
      RunNext(w, ops);
      StepGrows(w, op);
      LastSetWins(StepWorld(w, op), ops[1..], o, key);
      LastSetCons(op, ops[1..], o, key);
      assert ops == [op] + ops[1..];
      StepGet(w, op, o, key);
    }
  }

  lemma LastSetNone(o: nat, key: bytes)
    ensures LastSet([], o, key) == None
  {
  }

  lemma StepGrows(w: World, op: Op)
    requires WorldOk(w) && OpOk(w, op)
    ensures |w.dicts| <= |StepWorld(w, op).dicts|
  {
    hide WorldOk;
    hide DictSet;
  }

  lemma StepGet(w: World, op: Op, o: nat, key: bytes)
    requires WorldOk(w) && OpOk(w, op) && o < |w.dicts| && o < |StepWorld(w, op).dicts|
    ensures DictOk(w.dicts[o]) && DictOk(StepWorld(w, op).dicts[o])
    ensures DictGet(StepWorld(w, op).dicts[o], key)
         == if op.SetKey? && op.obj == o && op.key == key then Some(op.val) else DictGet(w.dicts[o], key)
  {
    hide WorldOk;
    hide DictGet;
    hide DictOk;
    hide DictSet;
    DictIsOk(w, o);
    if op.SetKey? && op.obj == o {
      SetKeys(w.dicts[o], op.key, op.val);
      SetLookup(w.dicts[o], op.key, op.val, key);
    }
  }
}
