/** The JSON value a runtime value stands for, if it stands for one, and how it is written
    (src/shape/serialize.c). */
module Json {
  import opened Bytes
  import opened Unescape
  import opened Keywords
  import opened ScopedKeys
  import opened Values

  /** A finite JSON value; object members are in their order. */
  datatype J =
    | JNull
    | JBool(b: bool)
    | JInt(i: int64)
    | JNum(d: Bits)
    | JBig(digits: bytes)
    | JStr(s: bytes)
    | JArr(items: seq<J>)
    | JObj(fields: seq<Field>)

  datatype Field = Field(key: bytes, val: J)

  /** The foreign parts: which doubles are finite, and how `%.17g` writes them. */
  datatype Floats = Floats(finite: Bits -> bool, text: Bits -> bytes)

  /** Members with such values are left out of objects, and written `null` in arrays. */
  predicate Absent(v: Value) { v.VUndefined? || v.VUnresolvable? || v.VImpossible? }

  const ZERO: bytes := [48]

  // ---------------------------------------------------------------- what a value stands for

  /** `v` stands for the finite value `j`. */
  ghost predicate Denotes(fl: Floats, w: World, v: Value, j: J)
    decreases j
  {
    match j
    case JNull => v.VNull? || v == VObj(None) || v == VArr(None)
    case JBool(b) => v == VBool(b)
    case JInt(i) => v == VInt(i)
    case JNum(d) => v == VDouble(d) && fl.finite(d)
    case JBig(x) => v.VBignum? && x == (if v.digits.Some? then v.digits.value else ZERO)
    case JStr(s) => v.VString? && s == (if v.text.Some? then CStr(v.text.value) else [])
    case JArr(items) =>
      v.VArr? && v.arr.Some? && v.arr.value < |w.lists| && DenotesCells(fl, w, w.lists[v.arr.value], items)
    case JObj(fields) =>
      && v.VObj? && v.obj.Some? && v.obj.value < |w.dicts| && |w.dicts[v.obj.value].keys| == |w.dicts[v.obj.value].vals|
      && DenotesFields(fl, w, w.dicts[v.obj.value].keys, w.dicts[v.obj.value].vals, fields)
  }

  ghost predicate DenotesCells(fl: Floats, w: World, cells: seq<Value>, items: seq<J>)
    decreases items
  {
    if cells == [] then items == []
    else
      var n := |cells| - 1;
      && |items| == n + 1
      && (if Absent(cells[n]) then items[n] == JNull else Denotes(fl, w, cells[n], items[n]))
      && DenotesCells(fl, w, cells[..n], items[..n])
  }

  ghost predicate DenotesFields(fl: Floats, w: World, keys: seq<bytes>, vals: seq<Value>, fields: seq<Field>)
    requires |keys| == |vals|
    decreases fields, |vals|
  {
    if vals == [] then fields == []
    else
      var n := |vals| - 1;
      if Absent(vals[n]) then DenotesFields(fl, w, keys[..n], vals[..n], fields)
      else
        && fields != []
        && var last := fields[|fields| - 1];
           && last.key == keys[n]
           && (assert last.val < last; Denotes(fl, w, vals[n], last.val))
           && DenotesFields(fl, w, keys[..n], vals[..n], fields[..|fields| - 1])
  }

  /** A value stands for at most one JSON value. */
  lemma {:induction false} DenotesOne(fl: Floats, w: World, v: Value, j: J, k: J)
    requires Denotes(fl, w, v, j) && Denotes(fl, w, v, k)
    ensures j == k
    decreases j, 1
  {
    hide DenotesCells;
    hide DenotesFields;
    hide CStr;
    if j.JArr? && k.JArr? {
      CellsOne(fl, w, w.lists[v.arr.value], j.items, k.items);
    } else if j.JObj? && k.JObj? {
      FieldsOne(fl, w, w.dicts[v.obj.value].keys, w.dicts[v.obj.value].vals, j.fields, k.fields);
    }
  }

  lemma {:induction false} CellsOne(fl: Floats, w: World, cells: seq<Value>, x: seq<J>, y: seq<J>)
    requires DenotesCells(fl, w, cells, x) && DenotesCells(fl, w, cells, y)
    ensures x == y
    decreases x, 0
  {
    hide Denotes;
    if cells != [] {
      var n := |cells| - 1;
      if !Absent(cells[n]) {
        DenotesOne(fl, w, cells[n], x[n], y[n]);
      }
      CellsOne(fl, w, cells[..n], x[..n], y[..n]);
      assert x == x[..n] + [x[n]] && y == y[..n] + [y[n]];
    }
  }

  lemma {:induction false} FieldsOne(fl: Floats, w: World, keys: seq<bytes>, vals: seq<Value>, x: seq<Field>, y: seq<Field>)
    requires |keys| == |vals| && DenotesFields(fl, w, keys, vals, x) && DenotesFields(fl, w, keys, vals, y)
    ensures x == y
    decreases x, |vals|
  {
    hide Denotes;
    hide Absent;
    if vals != [] {
      var n := |vals| - 1;
      if Absent(vals[n]) {
        FieldsOne(fl, w, keys[..n], vals[..n], x, y);
      } else {
        var a, b := x[|x| - 1], y[|y| - 1];
        assert a.val < a;
        DenotesOne(fl, w, vals[n], a.val, b.val);
        FieldsOne(fl, w, keys[..n], vals[..n], x[..|x| - 1], y[..|y| - 1]);
        assert x == x[..|x| - 1] + [a] && y == y[..|y| - 1] + [b];
      }
    }
  }

  // ---------------------------------------------------------------- containers and their contents

  function ValueOf(r: Ref): Value {
    match r
    case ToObj(o) => VObj(Some(o))
    case ToArr(a) => VArr(Some(a))
  }

  /** The values inside a container that are written. */
  ghost predicate Inside(w: World, r: Ref, v: Value) {
    !v.VUndefined? && !v.VUnresolvable? && !v.VImpossible? &&
    match r
    case ToObj(o) => o < |w.dicts| && v in w.dicts[o].vals
    case ToArr(a) => a < |w.lists| && v in w.lists[a]
  }

  function Size(j: J): (n: nat)
    ensures n >= 1
    decreases j
  {
    match j
    case JArr(items) => 1 + SizeItems(items)
    case JObj(fields) => 1 + SizeFields(fields)
    case _ => 1
  }

  function SizeItems(items: seq<J>): nat
    decreases items
  {
    if items == [] then 0 else SizeItems(items[..|items| - 1]) + Size(items[|items| - 1])
  }

  function SizeFields(fields: seq<Field>): nat
    decreases fields
  {
    if fields == [] then 0
    else
      var last := fields[|fields| - 1];
      assert last.val < last;
      SizeFields(fields[..|fields| - 1]) + Size(last.val)
  }

  ghost predicate Smaller(fl: Floats, w: World, v: Value, n: nat) {
    exists j: J :: Denotes(fl, w, v, j) && Size(j) <= n
  }

  lemma {:induction false} CellSmaller(fl: Floats, w: World, cells: seq<Value>, items: seq<J>, v: Value)
    requires DenotesCells(fl, w, cells, items) && v in cells && !Absent(v)
    ensures Smaller(fl, w, v, SizeItems(items))
    decreases |cells|
  {
    hide Denotes;
    hide Size;
    var n := |cells| - 1;
    if cells[n] == v {
      assert Denotes(fl, w, v, items[n]);
    } else {
      assert cells == cells[..n] + [cells[n]];
      CellSmaller(fl, w, cells[..n], items[..n], v);
      var j: J :| Denotes(fl, w, v, j) && Size(j) <= SizeItems(items[..n]);
    }
  }

  lemma {:induction false} FieldSmaller(fl: Floats, w: World, keys: seq<bytes>, vals: seq<Value>, fields: seq<Field>, v: Value)
    requires |keys| == |vals| && DenotesFields(fl, w, keys, vals, fields) && v in vals && !Absent(v)
    ensures Smaller(fl, w, v, SizeFields(fields))
    decreases |vals|
  {
    hide Denotes;
    hide Size;
    var n := |vals| - 1;
    if vals[n] == v {
      var last := fields[|fields| - 1];
      assert Denotes(fl, w, v, last.val);
    } else {
      assert vals == vals[..n] + [vals[n]];
      var rest := if Absent(vals[n]) then fields else fields[..|fields| - 1];
      FieldSmaller(fl, w, keys[..n], vals[..n], rest, v);
      var j: J :| Denotes(fl, w, v, j) && Size(j) <= SizeFields(rest);
    }
  }

  /** What is inside a container stands for something smaller. */
  lemma InsideSmaller(fl: Floats, w: World, r: Ref, v: Value, j: J)
    requires Denotes(fl, w, ValueOf(r), j) && Inside(w, r, v)
    ensures Smaller(fl, w, v, Size(j) - 1)
  {
    hide DenotesCells;
    hide DenotesFields;
    hide SizeItems;
    hide SizeFields;
    match r {
      case ToObj(o) => FieldSmaller(fl, w, w.dicts[o].keys, w.dicts[o].vals, j.fields, v);
      case ToArr(a) => CellSmaller(fl, w, w.lists[a], j.items, v);
    }
  }

  // ---------------------------------------------------------------- writing

  function HexDigit(n: int): byte
    requires 0 <= n < 16
  {
    if n < 10 then (48 + n) as byte else (87 + n) as byte
  }

  /** How one byte of a string is written. */
  function EscChar(c: byte): (r: bytes)
    ensures r != []
  {
    if c == QUOTE then [BACKSLASH, QUOTE]
    else if c == BACKSLASH then [BACKSLASH, BACKSLASH]
    else if c == 10 then [BACKSLASH, 110]
    else if c == 13 then [BACKSLASH, 114]
    else if c == 9 then [BACKSLASH, 116]
    else if c == 8 then [BACKSLASH, 98]
    else if c == 12 then [BACKSLASH, 102]
    else if c < 0x20 then [BACKSLASH, 117, 48, 48, HexDigit(c as int / 16), HexDigit(c as int % 16)]
    else [c]
  }

  function EscBody(s: bytes): bytes {
    if s == [] then [] else EscChar(s[0]) + EscBody(s[1..])
  }

  function PrintString(s: bytes): bytes {
    [QUOTE] + EscBody(s) + [QUOTE]
  }

  /** `%lld`. */
  function PrintInt(i: int64): bytes {
    if i < 0 then [45] + Decimal(0 - (i as int)) else Decimal(i)
  }


  function Print(fl: Floats, j: J): bytes
    decreases j
  {
    match j
    case JNull => NULL_WORD
    case JBool(b) => if b then TRUE_WORD else FALSE_WORD
    case JInt(i) => PrintInt(i)
    case JNum(d) => fl.text(d)
    case JBig(x) => x
    case JStr(s) => PrintString(s)
    case JArr(items) => [91] + PrintItems(fl, items) + [93]
    case JObj(fields) => [123] + PrintFields(fl, fields) + [125]
  }

  function PrintItems(fl: Floats, items: seq<J>): bytes
    decreases items
  {
    if items == [] then []
    else
      var n := |items| - 1;
      (if n > 0 then PrintItems(fl, items[..n]) + [44] else []) + Print(fl, items[n])
  }

  function PrintField(fl: Floats, f: Field): bytes
    decreases f
  {
    assert f.val < f;
    PrintString(f.key) + [58] + Print(fl, f.val)
  }

  function PrintFields(fl: Floats, fields: seq<Field>): bytes
    decreases fields
  {
    if fields == [] then []
    else
      var n := |fields| - 1;
      (if n > 0 then PrintFields(fl, fields[..n]) + [44] else []) + PrintField(fl, fields[n])
  }
}
