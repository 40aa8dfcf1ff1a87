/** Runtime values and what objects and arrays are to their users (src/include/shape.h):
    ordered dictionaries and sequences, with references counted. */
module Values {
  import opened Bytes

  type int64 = v: int | -0x8000_0000_0000_0000 <= v < 0x8000_0000_0000_0000

  /** A tagged value. Pointers to objects and arrays are indices; `None` is NULL. */
  datatype Value =
    | VUndefined
    | VInt(i: int64)
    | VPtr
    | VDouble(d: Bits)
    | VObj(obj: Option<nat>)
    | VArr(arr: Option<nat>)
    | VNull
    | VBool(b: bool)
    | VString(text: Option<bytes>)
    | VUnresolvable
    | VImpossible
    | VBignum(digits: Option<bytes>)

  /** Something that has a reference count. */
  datatype Ref = ToObj(o: nat) | ToArr(a: nat)

  function RefOf(v: Value): Option<Ref> {
    if v.VObj? && v.obj.Some? then Some(ToObj(v.obj.value))
    else if v.VArr? && v.arr.Some? then Some(ToArr(v.arr.value))
    else None
  }

  function One(v: Value, r: Ref): nat { if RefOf(v) == Some(r) then 1 else 0 }

  // ---------------------------------------------------------------- dictionaries

  /** Keys in the order they were first set, with their values. */
  datatype Dict = Dict(keys: seq<bytes>, vals: seq<Value>)

  ghost predicate Distinct(keys: seq<bytes>) {
    forall i, j :: 0 <= i < j < |keys| ==> keys[i] != keys[j]
  }

  ghost predicate DictOk(d: Dict) {
    |d.keys| == |d.vals| && Distinct(d.keys)
  }

  /** The position of a key, or -1. */
  function IndexOf(keys: seq<bytes>, key: bytes): (i: int)
    ensures -1 <= i < |keys|
    ensures i >= 0 ==> keys[i] == key
    ensures i == -1 ==> key !in keys
  {
    if keys == [] then -1
    else if keys[|keys| - 1] == key then |keys| - 1
    else IndexOf(keys[..|keys| - 1], key)
  }

  lemma IndexUnique(keys: seq<bytes>, key: bytes, i: nat)
    requires Distinct(keys) && i < |keys| && keys[i] == key
    ensures IndexOf(keys, key) == i
  {
    hide IndexOf;
    var j := IndexOf(keys, key);
    assert j >= 0;
  }

  function DictSet(d: Dict, key: bytes, v: Value): Dict
    requires |d.keys| == |d.vals|
  {
    var i := IndexOf(d.keys, key);
    if i >= 0 then d.(vals := d.vals[i := v]) else Dict(d.keys + [key], d.vals + [v])
  }

  function DictGet(d: Dict, key: bytes): Option<Value>
    requires |d.keys| == |d.vals|
  {
    var i := IndexOf(d.keys, key);
    if i >= 0 then Some(d.vals[i]) else None
  }

  /** A dictionary is a finite map that remembers the order of first setting. */
  ghost function AsMap(d: Dict): map<bytes, Value>
    requires |d.keys| == |d.vals|
  {
    map k | k in d.keys :: d.vals[IndexOf(d.keys, k)]
  }

  lemma IndexAppend(keys: seq<bytes>, last: bytes, key: bytes)
    requires last !in keys
    ensures IndexOf(keys + [last], key) == if key == last then |keys| else IndexOf(keys, key)
  {
    assert (keys + [last])[..|keys|] == keys;
  }

  lemma SetKeys(d: Dict, key: bytes, v: Value)
    requires DictOk(d)
    ensures DictOk(DictSet(d, key, v))
    ensures DictSet(d, key, v).keys == if key in d.keys then d.keys else d.keys + [key]
  {
    hide IndexOf;
  }

  lemma SetLookup(d: Dict, key: bytes, v: Value, k: bytes)
    requires DictOk(d)
    ensures DictGet(DictSet(d, key, v), k) == if k == key then Some(v) else DictGet(d, k)
  {
    hide IndexOf;
    SetKeys(d, key, v);
    var i := IndexOf(d.keys, key);
    if i < 0 {
      IndexAppend(d.keys, key, k);
    } else if k != key && k in d.keys {
      assert IndexOf(d.keys, k) != i;
    }
  }

  lemma MapForms(d: Dict)
    requires DictOk(d)
    ensures forall k :: k in AsMap(d) <==> k in d.keys
    ensures forall k :: k in AsMap(d) ==> DictGet(d, k) == Some(AsMap(d)[k])
    ensures |AsMap(d)| == |d.keys|
  {
    hide IndexOf;
    KeysCounted(d.keys);
    assert AsMap(d).Keys == set k | k in d.keys;
  }

  /** Setting a key is map update; it keeps the order and appends what is new. */
  lemma SetIsUpdate(d: Dict, key: bytes, v: Value)
    requires DictOk(d)
    ensures DictOk(DictSet(d, key, v))
    ensures AsMap(DictSet(d, key, v)) == AsMap(d)[key := v]
    ensures |DictSet(d, key, v).keys| == |AsMap(DictSet(d, key, v))|
    ensures DictSet(d, key, v).keys == if key in AsMap(d) then d.keys else d.keys + [key]
  {
    hide AsMap;
    hide DictGet;
    hide DictSet;
    var e := DictSet(d, key, v);
    SetKeys(d, key, v);
    MapForms(d);
    MapForms(e);
    var m, n := AsMap(e), AsMap(d)[key := v];
    forall k | k in m ensures k in n && m[k] == n[k] {
      SetLookup(d, key, v, k);
    }
    assert forall k :: k in n ==> k in m;
    assert m == n;
  }

  lemma {:induction false} KeysCounted(keys: seq<bytes>)
    requires Distinct(keys)
    ensures |set k | k in keys| == |keys|
  {
    if keys == [] {
      assert (set k | k in keys) == {};
    } else {
      var n := |keys| - 1;
      KeysCounted(keys[..n]);
      assert keys == keys[..n] + [keys[n]];
      assert (set k | k in keys) == (set k | k in keys[..n]) + {keys[n]};
    }
  }

  // ---------------------------------------------------------------- worlds

  /** All objects and arrays there are, as their users see them. */
  datatype World = World(dicts: seq<Dict>, lists: seq<seq<Value>>)

  datatype Op =
    | NewObj
    | NewArr
    | SetKey(obj: nat, key: bytes, val: Value)
    | SetItem(arr: nat, index: int, val: Value)

  ghost predicate InWorld(w: World, v: Value) {
    && (v.VObj? && v.obj.Some? ==> v.obj.value < |w.dicts|)
    && (v.VArr? && v.arr.Some? ==> v.arr.value < |w.lists|)
  }

  ghost predicate AllInWorld(w: World, vals: seq<Value>) {
    forall i :: 0 <= i < |vals| ==> InWorld(w, vals[i])
  }

  ghost predicate WorldOk(w: World) {
    && (forall o :: 0 <= o < |w.dicts| ==> DictOk(w.dicts[o]) && AllInWorld(w, w.dicts[o].vals))
    && (forall a :: 0 <= a < |w.lists| ==> AllInWorld(w, w.lists[a]))
  }

  /** An operation on objects that exist. */
  ghost predicate OpOk(w: World, op: Op) {
    match op
    case NewObj => true
    case NewArr => true
    case SetKey(o, _, v) => o < |w.dicts| && InWorld(w, v)
    case SetItem(a, _, v) => a < |w.lists| && InWorld(w, v)
  }

  /** A list after one cell was set: cells in between become undefined, a negative index
      is ignored. */
  function ListSet(l: seq<Value>, index: int, v: Value): (r: seq<Value>)
    ensures |r| == if index >= |l| then index + 1 else |l|
    ensures forall k :: 0 <= k < |r| ==> r[k] == if k == index then v else if k < |l| then l[k] else VUndefined
  {
    if index < 0 then l
    else if index < |l| then l[index := v]
    else l + Undefined(index - |l|) + [v]
  }

  function Undefined(n: nat): (r: seq<Value>)
    ensures |r| == n
  {
    seq(n, _ => VUndefined)
  }

  ghost function StepWorld(w: World, op: Op): World
    requires WorldOk(w) && OpOk(w, op)
  {
    match op
    case NewObj => w.(dicts := w.dicts + [Dict([], [])])
    case NewArr => w.(lists := w.lists + [[]])
    case SetKey(o, key, v) => w.(dicts := w.dicts[o := DictSet(w.dicts[o], key, v)])
    case SetItem(a, index, v) => w.(lists := w.lists[a := ListSet(w.lists[a], index, v)])
  }

  lemma MoreWorld(w: World, w2: World, vals: seq<Value>)
    requires AllInWorld(w, vals) && |w.dicts| <= |w2.dicts| && |w.lists| <= |w2.lists|
    ensures AllInWorld(w2, vals)
  {
  }

  lemma DictSetInWorld(w: World, d: Dict, key: bytes, v: Value)
    requires DictOk(d) && AllInWorld(w, d.vals) && InWorld(w, v)
    ensures AllInWorld(w, DictSet(d, key, v).vals)
  {
    hide IndexOf;
    hide InWorld;
  }

  lemma ListSetInWorld(w: World, l: seq<Value>, index: int, v: Value)
    requires AllInWorld(w, l) && InWorld(w, v)
    ensures AllInWorld(w, ListSet(l, index, v))
  {
  }

  lemma StepDict(w: World, op: Op, o: nat)
    requires WorldOk(w) && OpOk(w, op) && o < |StepWorld(w, op).dicts|
    ensures DictOk(StepWorld(w, op).dicts[o]) && AllInWorld(StepWorld(w, op), StepWorld(w, op).dicts[o].vals)
  {
    hide DictSet;
    hide ListSet;
    hide InWorld;
    hide Distinct;
    var w2 := StepWorld(w, op);
    var was := if o < |w.dicts| then w.dicts[o] else Dict([], []);
    EmptyDict(w);
    MoreWorld(w, w2, was.vals);
    if op.SetKey? && o == op.obj {
      SetKeys(was, op.key, op.val);
      DictSetInWorld(w, was, op.key, op.val);
      MoreWorld(w, w2, DictSet(was, op.key, op.val).vals);
    }
  }

  lemma EmptyDict(w: World)
    ensures DictOk(Dict([], [])) && AllInWorld(w, [])
  {
  }

  lemma StepList(w: World, op: Op, a: nat)
    requires WorldOk(w) && OpOk(w, op) && a < |StepWorld(w, op).lists|
    ensures AllInWorld(StepWorld(w, op), StepWorld(w, op).lists[a])
  {
    hide DictSet;
    hide ListSet;
    hide InWorld;
    hide DictOk;
    var w2 := StepWorld(w, op);
    var was := if a < |w.lists| then w.lists[a] else [];
    EmptyDict(w);
    MoreWorld(w, w2, was);
    if op.SetItem? && a == op.arr {
      ListSetInWorld(w, was, op.index, op.val);
      MoreWorld(w, w2, ListSet(was, op.index, op.val));
    }
  }

  lemma StepKeepsWorld(w: World, op: Op)
    requires WorldOk(w) && OpOk(w, op)
    ensures WorldOk(StepWorld(w, op))
  {
    hide StepWorld;
    hide DictOk;
    hide AllInWorld;
    var w2 := StepWorld(w, op);
    forall o | 0 <= o < |w2.dicts| ensures DictOk(w2.dicts[o]) && AllInWorld(w2, w2.dicts[o].vals) {
      StepDict(w, op, o);
    }
    forall a | 0 <= a < |w2.lists| ensures AllInWorld(w2, w2.lists[a]) {
      StepList(w, op, a);
    }
  }

  // ---------------------------------------------------------------- counting references

  /** How many of the cells hold a reference to `r`. */
  function Count(vals: seq<Value>, r: Ref): nat {
    if vals == [] then 0 else Count(vals[..|vals| - 1], r) + One(vals[|vals| - 1], r)
  }

  /** The cells that hold this value. */
  function Cells(vals: seq<Value>, v: Value): set<nat> {
    set i: nat | i < |vals| && vals[i] == v
  }

  lemma CellIn(vals: seq<Value>, v: Value, i: nat)
    ensures i in Cells(vals, v) <==> i < |vals| && vals[i] == v
  {
  }

  lemma CellsSnoc(vals: seq<Value>, v: Value)
    requires vals != []
    ensures |Cells(vals, v)| == |Cells(vals[..|vals| - 1], v)| + if vals[|vals| - 1] == v then 1 else 0
  {
    hide Cells;
    var n: nat := |vals| - 1;
    var all, before := Cells(vals, v), Cells(vals[..n], v);
    forall i: nat ensures i in all <==> i in before || (i == n && vals[n] == v) {
      CellIn(vals, v, i);
      CellIn(vals[..n], v, i);
    }
    CellIn(vals[..n], v, n);
    assert all == if vals[n] == v then before + {n} else before;
  }

  lemma {:induction false} CountCells(vals: seq<Value>, r: Ref, v: Value)
    requires v == if r.ToObj? then VObj(Some(r.o)) else VArr(Some(r.a))
    ensures Count(vals, r) == |Cells(vals, v)|
    decreases |vals|
  {
    if vals == [] {
      assert Cells(vals, v) == {};
    } else {
      var n: nat := |vals| - 1;
      var before := vals[..n];
      CountCells(before, r, v);
      CellsSnoc(vals, v);
      assert One(vals[n], r) == if vals[n] == v then 1 else 0;
      hide One, Cells;
    }
  }

  /** References are counted by the cells that hold the pointer. */
  lemma CountsPointers(vals: seq<Value>, i: nat)
    ensures Count(vals, ToObj(i)) == |Cells(vals, VObj(Some(i)))| && Count(vals, ToArr(i)) == |Cells(vals, VArr(Some(i)))|
  {
    CountCells(vals, ToObj(i), VObj(Some(i)));
    CountCells(vals, ToArr(i), VArr(Some(i)));
  }

  function CountDicts(ds: seq<Dict>, r: Ref): nat {
    if ds == [] then 0 else CountDicts(ds[..|ds| - 1], r) + Count(ds[|ds| - 1].vals, r)
  }

  function CountLists(ls: seq<seq<Value>>, r: Ref): nat {
    if ls == [] then 0 else CountLists(ls[..|ls| - 1], r) + Count(ls[|ls| - 1], r)
  }

  /** How many object slots and array cells hold a reference to `r`. */
  function Holders(w: World, r: Ref): nat {
    CountDicts(w.dicts, r) + CountLists(w.lists, r)
  }

  lemma {:induction false} CountUpdate(vals: seq<Value>, i: nat, v: Value, r: Ref)
    requires i < |vals|
    ensures Count(vals[i := v], r) + One(vals[i], r) == Count(vals, r) + One(v, r)
  {
    hide One;
    var n := |vals| - 1;
    if i == n {
      assert vals[i := v][..n] == vals[..n];
    } else {
      CountUpdate(vals[..n], i, v, r);
      assert vals[i := v][..n] == vals[..n][i := v];
    }
  }

  lemma CountAppend(vals: seq<Value>, v: Value, r: Ref)
    ensures Count(vals + [v], r) == Count(vals, r) + One(v, r)
  {
    hide One;
    assert (vals + [v])[..|vals|] == vals;
  }

  lemma {:induction false} CountUndefined(vals: seq<Value>, n: nat, r: Ref)
    ensures Count(vals + Undefined(n), r) == Count(vals, r)
  {
    if n == 0 {
      assert vals + Undefined(0) == vals;
    } else {
      CountUndefined(vals, n - 1, r);
      assert vals + Undefined(n) == (vals + Undefined(n - 1)) + [VUndefined];
      CountAppend(vals + Undefined(n - 1), VUndefined, r);
    }
  }

  lemma {:induction false} CountDictsUpdate(ds: seq<Dict>, o: nat, d: Dict, r: Ref)
    requires o < |ds|
    ensures CountDicts(ds[o := d], r) + Count(ds[o].vals, r) == CountDicts(ds, r) + Count(d.vals, r)
  {
    hide Count;
    var n := |ds| - 1;
    if o == n {
      assert ds[o := d][..n] == ds[..n];
    } else {
      CountDictsUpdate(ds[..n], o, d, r);
      assert ds[o := d][..n] == ds[..n][o := d];
    }
  }

  lemma {:induction false} CountListsUpdate(ls: seq<seq<Value>>, a: nat, l: seq<Value>, r: Ref)
    requires a < |ls|
    ensures CountLists(ls[a := l], r) + Count(ls[a], r) == CountLists(ls, r) + Count(l, r)
  {
    hide Count;
    var n := |ls| - 1;
    if a == n {
      assert ls[a := l][..n] == ls[..n];
    } else {
      CountListsUpdate(ls[..n], a, l, r);
      assert ls[a := l][..n] == ls[..n][a := l];
    }
  }

  /** What the cell an operation writes held before. */
  ghost function Replaced(w: World, op: Op): Value
    requires WorldOk(w) && OpOk(w, op)
  {
    match op
    case SetKey(o, key, _) =>
      (match DictGet(w.dicts[o], key) case None => VUndefined case Some(x) => x)
    case SetItem(a, index, _) => if 0 <= index < |w.lists[a]| then w.lists[a][index] else VUndefined
    case NewObj => VUndefined
    case NewArr => VUndefined
  }

  /** What an operation writes. */
  function Written(op: Op): Value {
    match op
    case SetKey(_, _, v) => v
    case SetItem(_, index, v) => if index >= 0 then v else VUndefined
    case NewObj => VUndefined
    case NewArr => VUndefined
  }

  lemma DictSetCounts(d: Dict, key: bytes, v: Value, r: Ref)
    requires DictOk(d)
    ensures Count(DictSet(d, key, v).vals, r) + One((match DictGet(d, key) case None => VUndefined case Some(x) => x), r)
         == Count(d.vals, r) + One(v, r)
  {
    hide IndexOf;
    hide Count;
    var i := IndexOf(d.keys, key);
    if i >= 0 {
      CountUpdate(d.vals, i, v, r);
    } else {
      CountAppend(d.vals, v, r);
    }
  }

  lemma ListSetCounts(l: seq<Value>, index: int, v: Value, r: Ref)
    ensures index >= 0 ==> Count(ListSet(l, index, v), r) + One(if index < |l| then l[index] else VUndefined, r) == Count(l, r) + One(v, r)
  {
    hide Count;
    if 0 <= index < |l| {
      CountUpdate(l, index, v, r);
    } else if index >= 0 {
      CountUndefined(l, index - |l|, r);
      CountAppend(l + Undefined(index - |l|), v, r);
    }
  }

  /** An operation moves exactly one reference: out of the cell it overwrites, into it. */
  lemma StepCounts(w: World, op: Op, r: Ref)
    requires WorldOk(w) && OpOk(w, op)
    ensures Holders(StepWorld(w, op), r) + One(Replaced(w, op), r) == Holders(w, r) + One(Written(op), r)
  {
    hide Count;
    hide CountDicts;
    hide CountLists;
    hide DictSet;
    hide DictGet;
    hide ListSet;
    match op {
      case NewObj => NewDictCounts(w.dicts, r);
      case NewArr => NewListCounts(w.lists, r);
      case SetKey(o, key, v) =>
        DictSetCounts(w.dicts[o], key, v, r);
        CountDictsUpdate(w.dicts, o, DictSet(w.dicts[o], key, v), r);
      case SetItem(a, index, v) =>
        NegativeSet(w.lists[a], index, v);
        ListSetCounts(w.lists[a], index, v, r);
        CountListsUpdate(w.lists, a, ListSet(w.lists[a], index, v), r);
    }
  }

  lemma NegativeSet(l: seq<Value>, index: int, v: Value)
    ensures index < 0 ==> ListSet(l, index, v) == l
  {
  }

  lemma NewDictCounts(ds: seq<Dict>, r: Ref)
    ensures CountDicts(ds + [Dict([], [])], r) == CountDicts(ds, r)
  {
    assert (ds + [Dict([], [])])[..|ds|] == ds;
    assert Count([], r) == 0;
  }

  lemma NewListCounts(ls: seq<seq<Value>>, r: Ref)
    ensures CountLists(ls + [[]], r) == CountLists(ls, r)
  {
    assert (ls + [[]])[..|ls|] == ls;
    assert Count([], r) == 0;
  }
}
