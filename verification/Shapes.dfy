/** The transition tree of hidden classes (src/shape/shape.c). Pointers to shapes are
    indices, the root is 0; a shape's transitions are listed newest first. */
module Shapes {
  import opened Bytes
  import opened Values

  datatype Transition = Transition(key: bytes, next: nat)

  /** The root has no parent and no last key. */
  datatype Shape = Shape(parent: int, lastKey: Option<bytes>, lastSlot: int, slotCount: nat, transitions: seq<Transition>)

  const ROOT := Shape(-1, None, -1, 0, [])

  /** The keys from the root down to a shape. */
  function Path(shapes: seq<Shape>, s: nat): seq<bytes>
    decreases s
  {
    if s < |shapes| && 0 <= shapes[s].parent < s && shapes[s].lastKey.Some?
    then Path(shapes, shapes[s].parent) + [shapes[s].lastKey.value]
    else []
  }

  ghost predicate LinkOk(shapes: seq<Shape>, s: nat, t: Transition) {
    s < t.next < |shapes| && shapes[t.next].parent == s && shapes[t.next].lastKey == Some(t.key)
  }

  ghost predicate ShapeOk(shapes: seq<Shape>, s: nat)
    requires s < |shapes|
  {
    var x := shapes[s];
    && (forall i :: 0 <= i < |x.transitions| ==> LinkOk(shapes, s, x.transitions[i]))
    && (forall i, j :: 0 <= i < j < |x.transitions| ==> x.transitions[i].key != x.transitions[j].key)
    && (if s == 0 then x.parent == -1 && x.lastKey.None? && x.lastSlot == -1 && x.slotCount == 0
        else && 0 <= x.parent < s && x.lastKey.Some?
             && x.lastSlot == shapes[x.parent].slotCount && x.slotCount == x.lastSlot + 1
             && x.lastKey.value !in Path(shapes, x.parent)
             && Listed(shapes, s))
  }

  /** A shape is reached from its parent. */
  ghost predicate Listed(shapes: seq<Shape>, s: nat)
    requires s < |shapes| && 0 <= shapes[s].parent < |shapes|
  {
    exists i :: 0 <= i < |shapes[shapes[s].parent].transitions| && shapes[shapes[s].parent].transitions[i].next == s
  }

  ghost predicate ShapesOk(shapes: seq<Shape>) {
    |shapes| >= 1 && forall s :: 0 <= s < |shapes| ==> ShapeOk(shapes, s)
  }

  /** The keys of a shape are distinct, and its slot count is their number. */
  lemma {:induction false} PathOk(shapes: seq<Shape>, s: nat)
    requires ShapesOk(shapes) && s < |shapes|
    ensures Distinct(Path(shapes, s)) && |Path(shapes, s)| == shapes[s].slotCount
    decreases s
  {
    assert ShapeOk(shapes, s);
    if s > 0 {
      PathOk(shapes, shapes[s].parent);
    }
  }

  lemma PathForms(shapes: seq<Shape>, s: nat)
    requires ShapesOk(shapes) && s < |shapes|
    ensures s == 0 ==> Path(shapes, s) == [] && shapes[0].slotCount == 0 && shapes[0].lastSlot == -1 && shapes[0].lastKey.None?
    ensures s > 0 ==> 0 <= shapes[s].parent < s && shapes[s].lastKey.Some?
                      && Path(shapes, s) == Path(shapes, shapes[s].parent) + [shapes[s].lastKey.value]
                      && shapes[s].lastSlot == shapes[shapes[s].parent].slotCount
  {
    assert ShapeOk(shapes, s);
  }

  lemma RootParent(shapes: seq<Shape>, s: nat)
    requires ShapesOk(shapes) && s < |shapes|
    ensures s == 0 ==> shapes[s].parent == -1
  {
    hide Path;
    assert ShapeOk(shapes, s);
  }

  /** A shape is determined by its keys in order. */
  lemma {:induction false} ShapeUnique(shapes: seq<Shape>, s: nat, t: nat)
    requires ShapesOk(shapes) && s < |shapes| && t < |shapes| && Path(shapes, s) == Path(shapes, t)
    ensures s == t
    decreases s
  {
    hide Path;
    hide Listed;
    PathForms(shapes, s);
    PathForms(shapes, t);
    if s > 0 && t > 0 {
      var p, q := Path(shapes, shapes[s].parent), Path(shapes, shapes[t].parent);
      assert p == Path(shapes, s)[..|p|] && q == Path(shapes, t)[..|q|];
      assert Path(shapes, s)[|p|] == shapes[s].lastKey.value && Path(shapes, t)[|q|] == shapes[t].lastKey.value;
      ShapeUnique(shapes, shapes[s].parent, shapes[t].parent);
      SiblingsDiffer(shapes, s, t);
    }
  }

  lemma SiblingsDiffer(shapes: seq<Shape>, s: nat, t: nat)
    requires ShapesOk(shapes) && 0 < s < |shapes| && 0 < t < |shapes|
    requires shapes[s].parent == shapes[t].parent && shapes[s].lastKey == shapes[t].lastKey
    ensures s == t
  {
    hide Path;
    assert ShapeOk(shapes, s) && ShapeOk(shapes, t);
    var p := shapes[s].parent;
    assert ShapeOk(shapes, p);
    var i :| 0 <= i < |shapes[p].transitions| && shapes[p].transitions[i].next == s;
    var j :| 0 <= j < |shapes[p].transitions| && shapes[p].transitions[j].next == t;
    assert LinkOk(shapes, p, shapes[p].transitions[i]) && LinkOk(shapes, p, shapes[p].transitions[j]);
  }

  // ---------------------------------------------------------------- adding a shape

  /** The shapes once `s` has got a child for `key`. */
  function Extended(shapes: seq<Shape>, s: nat, key: bytes): (r: seq<Shape>)
    requires s < |shapes|
    ensures |r| == |shapes| + 1
  {
    var x := shapes[s];
    shapes[s := x.(transitions := [Transition(key, |shapes|)] + x.transitions)]
    + [Shape(s, Some(key), x.slotCount, x.slotCount + 1, [])]
  }

  lemma {:induction false} PathKept(a: seq<Shape>, b: seq<Shape>, s: nat)
    requires s < |a| <= |b| && forall i :: 0 <= i < |a| ==> b[i].parent == a[i].parent && b[i].lastKey == a[i].lastKey
    ensures Path(b, s) == Path(a, s)
    decreases s
  {
    if 0 <= a[s].parent < s && a[s].lastKey.Some? {
      PathKept(a, b, a[s].parent);
    }
  }

  /** No transition of `s` has this key. */
  ghost predicate NoTransition(shapes: seq<Shape>, s: nat, key: bytes)
    requires s < |shapes|
  {
    forall i :: 0 <= i < |shapes[s].transitions| ==> shapes[s].transitions[i].key != key
  }

  lemma OldShapeOk(shapes: seq<Shape>, s: nat, key: bytes, k: nat)
    requires ShapesOk(shapes) && s < |shapes| && NoTransition(shapes, s, key) && k < |shapes|
    ensures ShapeOk(Extended(shapes, s, key), k)
  {
    hide Path;
    hide Distinct;
    var b := Extended(shapes, s, key);
    assert ShapeOk(shapes, k);
    var x, y := shapes[k], b[k];
    forall i | 0 <= i < |y.transitions| ensures LinkOk(b, k, y.transitions[i]) {
      if k == s && i > 0 {
        assert y.transitions[i] == x.transitions[i - 1];
        assert LinkOk(shapes, k, x.transitions[i - 1]);
      } else if k != s {
        assert LinkOk(shapes, k, x.transitions[i]);
      }
    }
    if k > 0 {
      PathKept(shapes, b, x.parent);
      ListedKept(shapes, s, key, k);
    }
  }

  lemma ListedKept(shapes: seq<Shape>, s: nat, key: bytes, k: nat)
    requires s < |shapes| && k < |shapes| && 0 <= shapes[k].parent < |shapes| && Listed(shapes, k)
    ensures Listed(Extended(shapes, s, key), k)
  {
    var b := Extended(shapes, s, key);
    var p := shapes[k].parent;
    var i :| 0 <= i < |shapes[p].transitions| && shapes[p].transitions[i].next == k;
    assert b[k].parent == p;
    if p == s {
      assert b[p].transitions[i + 1] == shapes[p].transitions[i];
    } else {
      assert b[p] == shapes[p];
    }
  }

  /** Adding a transition for a key the path does not have keeps every path and adds one. */
  lemma ExtendedOk(shapes: seq<Shape>, s: nat, key: bytes)
    requires ShapesOk(shapes) && s < |shapes| && NoTransition(shapes, s, key) && key !in Path(shapes, s)
    ensures ShapesOk(Extended(shapes, s, key))
    ensures forall k :: 0 <= k < |shapes| ==> Path(Extended(shapes, s, key), k) == Path(shapes, k)
                                              && Extended(shapes, s, key)[k].slotCount == shapes[k].slotCount
    ensures Path(Extended(shapes, s, key), |shapes|) == Path(shapes, s) + [key]
  {
    hide ShapeOk;
    hide Listed;
    var b := Extended(shapes, s, key);
    forall k | 0 <= k < |shapes| ensures ShapeOk(b, k) && Path(b, k) == Path(shapes, k) {
      OldShapeOk(shapes, s, key, k);
      PathKept(shapes, b, k);
    }
    NewShapeOk(shapes, s, key);
  }

  lemma NewShapeOk(shapes: seq<Shape>, s: nat, key: bytes)
    requires ShapesOk(shapes) && s < |shapes| && NoTransition(shapes, s, key) && key !in Path(shapes, s)
    requires Path(Extended(shapes, s, key), s) == Path(shapes, s)
    ensures ShapeOk(Extended(shapes, s, key), |shapes|)
  {
    hide Path;
    var b := Extended(shapes, s, key);
    assert b[s].transitions[0].next == |shapes|;
  }

  /** A key that has a transition is not on the path, and leads to the path with it. */
  lemma TransitionPath(shapes: seq<Shape>, s: nat, i: nat)
    requires ShapesOk(shapes) && s < |shapes| && i < |shapes[s].transitions|
    ensures var t := shapes[s].transitions[i];
            t.next < |shapes| && Path(shapes, t.next) == Path(shapes, s) + [t.key]
            && shapes[t.next].slotCount == shapes[s].slotCount + 1
  {
    hide Listed;
    assert ShapeOk(shapes, s);
    var t := shapes[s].transitions[i];
    assert LinkOk(shapes, s, t);
    assert ShapeOk(shapes, t.next);
  }
}
