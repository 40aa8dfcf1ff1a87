/** Writing a value that may share and cycle (src/shape/serialize.c): it ends, it fails
    exactly when the value is not a finite JSON value, and the buffer holds as much of the
    text as fits. */
module Serializer {
  import opened Bytes
  import opened Unescape
  import opened Keywords
  import opened ScopedKeys
  import opened Values
  import opened Shapes
  import opened Heap
  import opened Json

  // ---------------------------------------------------------------- the visited path

  /** The containers being written, innermost first: each is inside the next. */
  ghost predicate Chain(w: World, path: seq<Ref>, v: Value)
    decreases |path|
  {
    path == [] || (Inside(w, path[0], v) && Chain(w, path[1..], ValueOf(path[0])))
  }

  ghost predicate RefInWorld(w: World, r: Ref) {
    match r
    case ToObj(o) => o < |w.dicts|
    case ToArr(a) => a < |w.lists|
  }

  ghost predicate PathOf(w: World, path: seq<Ref>) {
    && (forall i :: 0 <= i < |path| ==> RefInWorld(w, path[i]))
    && (forall i, k :: 0 <= i < k < |path| ==> path[i] != path[k])
  }

  ghost function AllRefs(w: World): set<Ref> {
    (set o: nat | o < |w.dicts| :: ToObj(o)) + (set a: nat | a < |w.lists| :: ToArr(a))
  }

  lemma {:induction false} PathBound(w: World, path: seq<Ref>)
    requires PathOf(w, path)
    ensures |path| <= |AllRefs(w)| && (forall i :: 0 <= i < |path| ==> path[i] in AllRefs(w))
  {
    forall i | 0 <= i < |path| ensures path[i] in AllRefs(w) {
      assert RefInWorld(w, path[i]);
    }
    PathSet(path);
    SubsetCard((set r | r in path), AllRefs(w));
  }

  lemma {:induction false} PathSet(path: seq<Ref>)
    requires forall i, k :: 0 <= i < k < |path| ==> path[i] != path[k]
    ensures |set r | r in path| == |path|
    decreases |path|
  {
    if path == [] {
      assert (set r | r in path) == {};
    } else {
      PathSet(path[1..]);
      assert path == [path[0]] + path[1..];
      assert (set r | r in path) == {path[0]} + (set r | r in path[1..]);
    }
  }

  lemma {:induction false} SubsetCard(a: set<Ref>, b: set<Ref>)
    requires a <= b
    ensures |a| <= |b|
    decreases |b|
  {
    if a != {} {
      var x :| x in a;
      SubsetCard(a - {x}, b - {x});
    }
  }

  /** A container on the path that stands for a value makes everything below it stand for
      something smaller. */
  lemma {:induction false} ChainSmaller(fl: Floats, w: World, path: seq<Ref>, v: Value, i: nat, j: J)
    requires Chain(w, path, v) && i < |path| && Denotes(fl, w, ValueOf(path[i]), j)
    ensures Smaller(fl, w, v, Size(j) - 1)
    decreases |path|
  {
    hide Denotes;
    hide Inside;
    hide Size;
    if i == 0 {
      InsideSmaller(fl, w, path[0], v, j);
    } else {
      ChainSmaller(fl, w, path[1..], ValueOf(path[0]), i - 1, j);
      var k: J :| Denotes(fl, w, ValueOf(path[0]), k) && Size(k) <= Size(j) - 1;
      InsideSmaller(fl, w, path[0], v, k);
      var m: J :| Denotes(fl, w, v, m) && Size(m) <= Size(k) - 1;
    }
  }

  ghost predicate Denotable(fl: Floats, w: World, v: Value) {
    exists j: J :: Denotes(fl, w, v, j)
  }

  /** A container inside itself stands for nothing. */
  lemma CycleDenotesNothing(fl: Floats, w: World, path: seq<Ref>, v: Value, i: nat)
    requires Chain(w, path, v) && i < |path| && v == ValueOf(path[i])
    ensures !Denotable(fl, w, v)
  {
    hide Denotes;
    hide Chain;
    hide Size;
    if j: J :| Denotes(fl, w, v, j) {
      NotSmaller(fl, w, path, v, i, j);
    }
  }

  lemma NotSmaller(fl: Floats, w: World, path: seq<Ref>, v: Value, i: nat, j: J)
    requires Chain(w, path, v) && i < |path| && v == ValueOf(path[i])
    ensures !Denotes(fl, w, v, j)
  {
    hide Denotes;
    hide Chain;
    hide Size;
    if Denotes(fl, w, v, j) {
      ChainSmaller(fl, w, path, v, i, j);
      var k: J :| Denotes(fl, w, v, k) && Size(k) <= Size(j) - 1;
      DenotesOne(fl, w, v, j, k);
    }
  }

  /** A container with something unwritable inside is unwritable. */
  lemma InsideFails(fl: Floats, w: World, r: Ref, v: Value)
    requires Inside(w, r, v) && !Denotable(fl, w, v)
    ensures !Denotable(fl, w, ValueOf(r))
  {
    hide Denotes;
    hide Size;
    hide Inside;
    forall j: J ensures !Denotes(fl, w, ValueOf(r), j) {
      ContainerFails(fl, w, r, v, j);
    }
  }

  lemma ContainerFails(fl: Floats, w: World, r: Ref, v: Value, j: J)
    requires Inside(w, r, v) && !Denotable(fl, w, v)
    ensures !Denotes(fl, w, ValueOf(r), j)
  {
    hide Denotes;
    hide Size;
    hide Inside;
    if Denotes(fl, w, ValueOf(r), j) {
      InsideSmaller(fl, w, r, v, j);
    }
  }

  // ---------------------------------------------------------------- the writer

  /** `JsonWriter`; `text` is everything written, whether or not it fitted. */
  class JsonWriter {
    const buf: array?<byte>
    var written: nat
    var error: bool
    ghost var text: bytes

    ghost predicate Valid()
      reads this, buf
    {
      && (buf != null ==> buf.Length > 0)
      && written == |text|
      && (buf != null ==> forall i :: 0 <= i < |text| && i < buf.Length - 1 ==> buf[i] == text[i])
    }

    constructor (b: array?<byte>)
      requires b != null ==> b.Length > 0
      ensures Valid() && buf == b && !error && text == []
    {
      buf, written, error, text := b, 0, false, [];
    }

    /** `write_char`. */
    method WriteChar(c: byte)
      requires Valid()
      modifies this, buf
      ensures Valid() && error == old(error) && text == if error then old(text) else old(text) + [c]
    {
      if error {
        return;
      }
      if buf != null && written < buf.Length - 1 {
        buf[written] := c;
      }
      written := written + 1;
      text := text + [c];
    }

    /** `write_str`. */
    method WriteStr(s: bytes)
      requires Valid()
      modifies this, buf
      ensures Valid() && error == old(error) && text == if error then old(text) else old(text) + s
    {
      if error {
        return;
      }
      var i := 0;
      while i < |s|
        invariant 0 <= i <= |s| && Valid() && !error && text == old(text) + s[..i]
      {
        WriteChar(s[i]);
        assert s[..i + 1] == s[..i] + [s[i]];
        i := i + 1;
      }
      assert s[..i] == s;
    }

    /** The escaped form of one byte; `%04x` writes the two zeros and the two digits. */
    method WriteEscaped(c: byte)
      requires Valid()
      modifies this, buf
      ensures Valid() && error == old(error) && text == if error then old(text) else old(text) + EscChar(c)
    {
      if c == QUOTE {
        WriteStr([BACKSLASH, QUOTE]);
      } else if c == BACKSLASH {
        WriteStr([BACKSLASH, BACKSLASH]);
      } else if c == 10 {
        WriteStr([BACKSLASH, 110]);
      } else if c == 13 {
        WriteStr([BACKSLASH, 114]);
      } else if c == 9 {
        WriteStr([BACKSLASH, 116]);
      } else if c == 8 {
        WriteStr([BACKSLASH, 98]);
      } else if c == 12 {
        WriteStr([BACKSLASH, 102]);
      } else if c < 0x20 {
        WriteStr([BACKSLASH, 117, 48, 48, HexDigit(c as int / 16), HexDigit(c as int % 16)]);
      } else {
        WriteChar(c);
      }
    }

    /** `write_escaped_str`. */
    method WriteEscapedStr(s: bytes)
      requires Valid()
      modifies this, buf
      ensures Valid() && error == old(error) && text == if error then old(text) else old(text) + PrintString(s)
    {
      hide EscBody;
      hide EscChar;
      WriteChar(QUOTE);
      ghost var start := text;
      var i := 0;
      EscBodyForms(s, 0);
      assert s[0..] == s;
      while i < |s|
        invariant 0 <= i <= |s| && Valid() && error == old(error)
        invariant error ==> text == old(text)
        invariant !error ==> text + EscBody(s[i..]) == start + EscBody(s)
      {
        EscBodyForms(s, i);
        ghost var was := text;
        WriteEscaped(s[i]);
        Regroup(was, EscChar(s[i]), EscBody(s[i + 1..]));
        i := i + 1;
      }
      EscBodyForms(s, i);
      WriteChar(QUOTE);
      Regroup(old(text), [QUOTE], EscBody(s));
      Regroup(old(text), [QUOTE] + EscBody(s), [QUOTE]);
    }
  }

  lemma EscBodyForms(s: bytes, i: nat)
    requires i <= |s|
    ensures i == |s| ==> EscBody(s[i..]) == []
    ensures i < |s| ==> EscBody(s[i..]) == EscChar(s[i]) + EscBody(s[i + 1..])
  {
    hide EscChar;
    if i < |s| {
      assert s[i..][1..] == s[i + 1..];
    }
  }

  // ---------------------------------------------------------------- values

  /** The outcome of writing `v` after the text `was`: its one text, or an error if it has none. */
  ghost predicate Wrote(fl: Floats, w: World, v: Value, was: bytes, error: bool, now: bytes, j: J) {
    if error then !Denotable(fl, w, v)
    else Denotes(fl, w, v, j) && now == was + Print(fl, j)
  }

  /** The cells written so far; `None` once one of them failed. */
  ghost predicate WroteCells(fl: Floats, w: World, cells: seq<Value>, was: bytes, error: bool, now: bytes, items: seq<J>) {
    !error ==> DenotesCells(fl, w, cells, items) && now == was + [91] + PrintItems(fl, items)
  }

  ghost predicate WroteFields(fl: Floats, w: World, keys: seq<bytes>, vals: seq<Value>, was: bytes, error: bool, now: bytes, fields: seq<Field>)
    requires |keys| == |vals|
  {
    !error ==> DenotesFields(fl, w, keys, vals, fields) && now == was + [123] + PrintFields(fl, fields)
  }

  lemma CellsStart(fl: Floats, w: World, was: bytes)
    ensures WroteCells(fl, w, [], was, false, was + [91], [])
    ensures WroteFields(fl, w, [], [], was, false, was + [123], [])
  {
    assert was + [91] + [] == was + [91] && was + [123] + [] == was + [123];
  }

  /** One more cell, behind a comma unless it is the first. */
  lemma CellsNext(fl: Floats, w: World, cells: seq<Value>, was: bytes, mid: bytes, now: bytes, items: seq<J>, v: Value, j: J)
    requires WroteCells(fl, w, cells, was, false, mid, items) && |items| == |cells|
    requires now == (if cells == [] then mid else mid + [44]) + Print(fl, j)
    requires if Absent(v) then j == JNull else Denotes(fl, w, v, j)
    ensures WroteCells(fl, w, cells + [v], was, false, now, items + [j])
  {
    hide Denotes;
    hide Print;
    var n := |cells|;
    assert (cells + [v])[..n] == cells && (items + [j])[..n] == items;
    if n > 0 {
      Regroup(was + [91], PrintItems(fl, items), [44]);
      Regroup(was + [91], PrintItems(fl, items) + [44], Print(fl, j));
    } else {
      assert PrintItems(fl, []) == [] && was + [91] + [] == was + [91];
      assert [] + Print(fl, j) == Print(fl, j);
    }
  }

  lemma FieldsSkip(fl: Floats, w: World, keys: seq<bytes>, vals: seq<Value>, was: bytes, now: bytes, fields: seq<Field>, key: bytes, v: Value)
    requires |keys| == |vals| && WroteFields(fl, w, keys, vals, was, false, now, fields) && Absent(v)
    ensures WroteFields(fl, w, keys + [key], vals + [v], was, false, now, fields)
  {
    hide Denotes;
    hide PrintFields;
    assert (keys + [key])[..|keys|] == keys && (vals + [v])[..|vals|] == vals;
  }

  lemma FieldsNext(fl: Floats, w: World, keys: seq<bytes>, vals: seq<Value>, was: bytes, mid: bytes, now: bytes,
                   fields: seq<Field>, key: bytes, v: Value, j: J)
    requires |keys| == |vals| && WroteFields(fl, w, keys, vals, was, false, mid, fields)
    requires !Absent(v) && Denotes(fl, w, v, j)
    requires now == (if fields == [] then mid else mid + [44]) + PrintField(fl, Field(key, j))
    ensures WroteFields(fl, w, keys + [key], vals + [v], was, false, now, fields + [Field(key, j)])
  {
    hide Denotes;
    hide PrintField;
    var n := |fields|;
    assert (keys + [key])[..|keys|] == keys && (vals + [v])[..|vals|] == vals && (fields + [Field(key, j)])[..n] == fields;
    if n > 0 {
      Regroup(was + [123], PrintFields(fl, fields), [44]);
      Regroup(was + [123], PrintFields(fl, fields) + [44], PrintField(fl, Field(key, j)));
    } else {
      assert PrintFields(fl, []) == [] && was + [123] + [] == was + [123];
      assert [] + PrintField(fl, Field(key, j)) == PrintField(fl, Field(key, j));
    }
  }

  lemma ArrayWrote(fl: Floats, w: World, a: nat, was: bytes, mid: bytes, items: seq<J>)
    requires a < |w.lists| && WroteCells(fl, w, w.lists[a], was, false, mid, items)
    ensures Wrote(fl, w, VArr(Some(a)), was, false, mid + [93], JArr(items))
  {
    hide DenotesCells;
    hide PrintItems;
    Regroup(was, [91], PrintItems(fl, items));
    Regroup(was, [91] + PrintItems(fl, items), [93]);
  }

  lemma ObjectWrote(fl: Floats, w: World, o: nat, was: bytes, mid: bytes, fields: seq<Field>)
    requires o < |w.dicts| && |w.dicts[o].keys| == |w.dicts[o].vals|
    requires WroteFields(fl, w, w.dicts[o].keys, w.dicts[o].vals, was, false, mid, fields)
    ensures Wrote(fl, w, VObj(Some(o)), was, false, mid + [125], JObj(fields))
  {
    hide DenotesFields;
    hide PrintFields;
    Regroup(was, [123], PrintFields(fl, fields));
    Regroup(was, [123] + PrintFields(fl, fields), [125]);
  }

  lemma LeafFails(fl: Floats, w: World, v: Value)
    requires v.VPtr? || Absent(v) || (v.VDouble? && !fl.finite(v.d))
    ensures !Denotable(fl, w, v)
  {
    hide DenotesCells;
    hide DenotesFields;
  }

  /** The values without anything inside. */
  method WriteLeaf(wr: JsonWriter, fl: Floats, v: Value, ghost w: World) returns (ghost j: J)
    requires wr.Valid() && !wr.error && !(v.VObj? && v.obj.Some?) && !(v.VArr? && v.arr.Some?)
    modifies wr, wr.buf
    ensures wr.Valid() && Wrote(fl, w, v, old(wr.text), wr.error, wr.text, j)
  {
    hide DenotesCells;
    hide DenotesFields;
    hide PrintItems;
    hide PrintFields;
    hide EscBody;
    hide CStr;
    hide PrintInt;
    j := JNull;
    if v.VNull? || v.VObj? || v.VArr? {
      wr.WriteStr(NULL_WORD);
    } else if v.VBool? {
      j := JBool(v.b);
      if v.b {
        wr.WriteStr(TRUE_WORD);
      } else {
        wr.WriteStr(FALSE_WORD);
      }
    } else if v.VInt? {
      j := JInt(v.i);
      var digits := PrintInt(v.i);
      wr.WriteStr(digits);
    } else if v.VDouble? && fl.finite(v.d) {
      j := JNum(v.d);
      wr.WriteStr(fl.text(v.d));
    } else if v.VBignum? {
      var digits := if v.digits.Some? then v.digits.value else ZERO;
      j := JBig(digits);
      wr.WriteStr(digits);
    } else if v.VString? {
      var s := if v.text.Some? then CStr(v.text.value) else [];
      j := JStr(s);
      wr.WriteEscapedStr(s);
    } else {
      LeafFails(fl, w, v);
      wr.error := true;
    }
  }

  /** `visited_contains`. */
  method VisitedContains(visited: seq<Ref>, r: Ref) returns (found: bool)
    ensures found <==> r in visited
  {
    var i := 0;
    while i < |visited|
      invariant 0 <= i <= |visited| && r !in visited[..i]
    {
      if visited[i] == r {
        return true;
      }
      i := i + 1;
    }
    assert visited[..i] == visited;
    found := false;
  }

  ghost predicate PathTo(w: World, visited: seq<Ref>, v: Value) {
    PathOf(w, visited) && Chain(w, visited, v)
  }

  lemma DeeperPath(w: World, visited: seq<Ref>, r: Ref, v: Value)
    requires PathTo(w, visited, ValueOf(r)) && r !in visited && RefInWorld(w, r) && Inside(w, r, v)
    ensures PathTo(w, [r] + visited, v)
  {
    hide Inside;
    assert ([r] + visited)[1..] == visited;
  }

  lemma DeeperBound(w: World, visited: seq<Ref>, r: Ref)
    requires PathOf(w, visited) && r !in visited && RefInWorld(w, r)
    ensures |visited| < |AllRefs(w)|
  {
    hide AllRefs;
    PathBound(w, [r] + visited);
  }

  lemma VisitedFails(fl: Floats, w: World, visited: seq<Ref>, r: Ref)
    requires PathTo(w, visited, ValueOf(r)) && r in visited
    ensures !Denotable(fl, w, ValueOf(r))
  {
    hide Chain;
    hide Denotable;
    var i :| 0 <= i < |visited| && visited[i] == r;
    CycleDenotesNothing(fl, w, visited, ValueOf(r), i);
  }

  /** `serialize_val`. */
  method SerializeVal(wr: JsonWriter, h: Heap, fl: Floats, v: Value, visited: seq<Ref>, ghost w: World) returns (ghost j: J)
    requires wr.Valid() && h.Valid() && h.World() == w && WorldOk(w) && InWorld(w, v) && PathTo(w, visited, v)
    requires |visited| <= |AllRefs(w)|
    modifies wr, wr.buf
    ensures wr.Valid()
    ensures old(wr.error) ==> wr.error && wr.text == old(wr.text)
    ensures !old(wr.error) ==> Wrote(fl, w, v, old(wr.text), wr.error, wr.text, j)
    decreases |AllRefs(w)| - |visited|, 3
  {
    hide WorldOk;
    hide StateOk;
    hide PathTo;
    hide Wrote;
    hide Denotable;
    hide AllRefs;
    j := JNull;
    if wr.error {
      return;
    }
    if v.VObj? && v.obj.Some? {
      j := SerializeObj(wr, h, fl, v.obj.value, visited, w);
    } else if v.VArr? && v.arr.Some? {
      j := SerializeArr(wr, h, fl, v.arr.value, visited, w);
    } else {
      j := WriteLeaf(wr, fl, v, w);
    }
  }

  /** The object case: members with absent values are left out. */
  method SerializeObj(wr: JsonWriter, h: Heap, fl: Floats, o: nat, visited: seq<Ref>, ghost w: World) returns (ghost j: J)
    requires wr.Valid() && !wr.error && h.Valid() && h.World() == w && WorldOk(w) && o < |w.dicts| && PathTo(w, visited, VObj(Some(o)))
    requires |visited| <= |AllRefs(w)|
    modifies wr, wr.buf
    ensures wr.Valid() && Wrote(fl, w, VObj(Some(o)), old(wr.text), wr.error, wr.text, j)
    decreases |AllRefs(w)| - |visited|, 2
  {
    hide WorldOk;
    hide StateOk;
    hide Denotable;
    hide PathTo;
    hide Wrote;
    hide WroteFields;
    hide AllRefs;
    hide DictOk;
    hide PathOf;
    hide Inside;
    hide Absent;
    j := JNull;
    var me := ToObj(o);
    ghost var was := wr.text;
    var found := VisitedContains(visited, me);
    if found {
      VisitedFails(fl, w, visited, me);
      wr.error := true;
      FailedWrote(fl, w, VObj(Some(o)), was, wr.text, j);
      return;
    }
    PathParts(w, visited, VObj(Some(o)));
    DeeperBound(w, visited, me);
    DictParts(w, o);
    wr.WriteChar(123);
    ghost var d := w.dicts[o];
    CellsStart(fl, w, was);
    assert d.keys[..0] == [] && d.vals[..0] == [];
    ghost var fields: seq<Field> := [];
    var first := true;
    var n := h.ObjLength(o);
    var i := 0;
    while i < n
      invariant 0 <= i <= n == |d.vals| && wr.Valid()
      invariant WroteFields(fl, w, d.keys[..i], d.vals[..i], was, wr.error, wr.text, fields)
      invariant first <==> fields == []
      invariant wr.error ==> !Denotable(fl, w, VObj(Some(o)))
      decreases n - i
    {
      var key, val := h.ObjAt(o, i);
      PrefixStep(d.keys, i);
      PrefixStep(d.vals, i);
      if !Absent(val) {
        ghost var mid, failed := wr.text, wr.error;
        j := SerializeMember(wr, h, fl, me, key.value, val, first, visited, w);
        first := false;
        if !failed && !wr.error {
          FieldsNext(fl, w, d.keys[..i], d.vals[..i], was, mid, wr.text, fields, key.value, val, j);
        }
        fields := fields + [Field(key.value, j)];
        FieldsFailed(fl, w, d.keys[..i + 1], d.vals[..i + 1], was, wr.error, wr.text, fields);
      } else if !wr.error {
        FieldsSkip(fl, w, d.keys[..i], d.vals[..i], was, wr.text, fields, key.value, val);
      } else {
        FieldsFailed(fl, w, d.keys[..i + 1], d.vals[..i + 1], was, wr.error, wr.text, fields);
      }
      i := i + 1;
    }
    assert d.keys[..i] == d.keys && d.vals[..i] == d.vals;
    ghost var mid := wr.text;
    wr.WriteChar(125);
    j := JObj(fields);
    if wr.error {
      FailedWrote(fl, w, VObj(Some(o)), was, wr.text, j);
    } else {
      ObjectWrote(fl, w, o, was, mid, fields);
    }
  }

  /** One member: comma, key, colon, value. */
  method SerializeMember(wr: JsonWriter, h: Heap, fl: Floats, me: Ref, key: bytes, val: Value, first: bool, visited: seq<Ref>, ghost w: World)
    returns (ghost j: J)
    requires wr.Valid() && h.Valid() && h.World() == w && WorldOk(w)
    requires PathTo(w, visited, ValueOf(me)) && me !in visited && RefInWorld(w, me) && InWorld(w, val)
    requires !Absent(val) && me.ToObj? && val in w.dicts[me.o].vals
    requires |visited| < |AllRefs(w)|
    modifies wr, wr.buf
    ensures wr.Valid() && (old(wr.error) ==> wr.error)
    ensures wr.error && !old(wr.error) ==> !Denotable(fl, w, ValueOf(me))
    ensures !wr.error ==> Denotes(fl, w, val, j)
    ensures !wr.error ==> wr.text == (if first then old(wr.text) else old(wr.text) + [44]) + PrintField(fl, Field(key, j))
    decreases |AllRefs(w)| - |visited|, 1
  {
    hide WorldOk;
    hide StateOk;
    hide Denotable;
    hide Denotes;
    hide PathTo;
    hide AllRefs;
    hide Print;
    hide PrintString;
    if !first {
      wr.WriteChar(44);
    }
    ghost var start := wr.text;
    wr.WriteEscapedStr(key);
    wr.WriteChar(58);
    DeeperPath(w, visited, me, val);
    j := SerializeVal(wr, h, fl, val, [me] + visited, w);
    if wr.error && !old(wr.error) {
      InsideFails(fl, w, me, val);
    }
    Regroup(start, PrintString(key), [58]);
    Regroup(start, PrintString(key) + [58], Print(fl, j));
  }

  /** The array case: absent cells are written `null`. */
  method SerializeArr(wr: JsonWriter, h: Heap, fl: Floats, a: nat, visited: seq<Ref>, ghost w: World) returns (ghost j: J)
    requires wr.Valid() && !wr.error && h.Valid() && h.World() == w && WorldOk(w) && a < |w.lists| && PathTo(w, visited, VArr(Some(a)))
    requires |visited| <= |AllRefs(w)|
    modifies wr, wr.buf
    ensures wr.Valid() && Wrote(fl, w, VArr(Some(a)), old(wr.text), wr.error, wr.text, j)
    decreases |AllRefs(w)| - |visited|, 2
  {
    hide WorldOk;
    hide StateOk;
    hide Denotable;
    hide PathTo;
    hide Wrote;
    hide WroteCells;
    hide AllRefs;
    hide PathOf;
    hide Inside;
    hide Absent;
    hide Print;
    j := JNull;
    var me := ToArr(a);
    ghost var was := wr.text;
    var found := VisitedContains(visited, me);
    if found {
      VisitedFails(fl, w, visited, me);
      wr.error := true;
      FailedWrote(fl, w, VArr(Some(a)), was, wr.text, j);
      return;
    }
    PathParts(w, visited, VArr(Some(a)));
    DeeperBound(w, visited, me);
    wr.WriteChar(91);
    ghost var l := w.lists[a];
    CellsStart(fl, w, was);
    assert l[..0] == [];
    ghost var items: seq<J> := [];
    var n := h.ArrLength(a);
    var i := 0;
    while i < n
      invariant 0 <= i <= n == |l| && wr.Valid() && |items| == i
      invariant WroteCells(fl, w, l[..i], was, wr.error, wr.text, items)
      invariant wr.error ==> !Denotable(fl, w, VArr(Some(a)))
      decreases n - i
    {
      var cell := h.ArrGet(a, i);
      PrefixStep(l, i);
      ghost var mid, failed := wr.text, wr.error;
      j := SerializeCell(wr, h, fl, me, cell.value, i == 0, visited, w);
      if !failed && !wr.error {
        CellsNext(fl, w, l[..i], was, mid, wr.text, items, cell.value, j);
      }
      items := items + [j];
      CellsFailed(fl, w, l[..i + 1], was, wr.error, wr.text, items);
      i := i + 1;
    }
    assert l[..i] == l;
    ghost var mid := wr.text;
    wr.WriteChar(93);
    j := JArr(items);
    if wr.error {
      FailedWrote(fl, w, VArr(Some(a)), was, wr.text, j);
    } else {
      ArrayWrote(fl, w, a, was, mid, items);
    }
  }

  method SerializeCell(wr: JsonWriter, h: Heap, fl: Floats, me: Ref, val: Value, first: bool, visited: seq<Ref>, ghost w: World)
    returns (ghost j: J)
    requires wr.Valid() && h.Valid() && h.World() == w && WorldOk(w)
    requires PathTo(w, visited, ValueOf(me)) && me !in visited && RefInWorld(w, me) && me.ToArr? && val in w.lists[me.a]
    requires |visited| < |AllRefs(w)|
    modifies wr, wr.buf
    ensures wr.Valid() && (old(wr.error) ==> wr.error)
    ensures wr.error && !old(wr.error) ==> !Denotable(fl, w, ValueOf(me))
    ensures !wr.error ==> if Absent(val) then j == JNull else Denotes(fl, w, val, j)
    ensures !wr.error ==> wr.text == (if first then old(wr.text) else old(wr.text) + [44]) + Print(fl, j)
    decreases |AllRefs(w)| - |visited|, 1
  {
    hide WorldOk;
    hide StateOk;
    hide Denotable;
    hide Denotes;
    hide PathTo;
    hide AllRefs;
    if !first {
      wr.WriteChar(44);
    }
    if Absent(val) {
      wr.WriteStr(NULL_WORD);
      j := JNull;
    } else {
      DeeperPath(w, visited, me, val);
      CellInWorld(w, me.a, val);
      j := SerializeVal(wr, h, fl, val, [me] + visited, w);
      if wr.error && !old(wr.error) {
        InsideFails(fl, w, me, val);
      }
    }
  }

  lemma CellInWorld(w: World, a: nat, v: Value)
    requires WorldOk(w) && a < |w.lists| && v in w.lists[a]
    ensures InWorld(w, v)
  {
    hide InWorld;
    assert AllInWorld(w, w.lists[a]);
  }

  lemma PathParts(w: World, visited: seq<Ref>, v: Value)
    requires PathTo(w, visited, v)
    ensures PathOf(w, visited)
  {
    hide PathOf;
    hide Chain;
  }

  lemma DictParts(w: World, o: nat)
    requires WorldOk(w) && o < |w.dicts|
    ensures |w.dicts[o].keys| == |w.dicts[o].vals|
    ensures forall i :: 0 <= i < |w.dicts[o].vals| ==> InWorld(w, w.dicts[o].vals[i])
  {
    hide InWorld;
    assert DictOk(w.dicts[o]) && AllInWorld(w, w.dicts[o].vals);
  }

  lemma PrefixStep<T>(s: seq<T>, i: nat)
    ensures i < |s| ==> s[..i + 1] == s[..i] + [s[i]]
  {
  }

  lemma FailedWrote(fl: Floats, w: World, v: Value, was: bytes, now: bytes, j: J)
    requires !Denotable(fl, w, v)
    ensures Wrote(fl, w, v, was, true, now, j)
  {
    hide Denotable;
  }

  lemma FieldsFailed(fl: Floats, w: World, keys: seq<bytes>, vals: seq<Value>, was: bytes, error: bool, now: bytes, fields: seq<Field>)
    requires |keys| == |vals|
    ensures error ==> WroteFields(fl, w, keys, vals, was, error, now, fields)
  {
    hide DenotesFields;
  }

  lemma CellsFailed(fl: Floats, w: World, cells: seq<Value>, was: bytes, error: bool, now: bytes, items: seq<J>)
    ensures error ==> WroteCells(fl, w, cells, was, error, now, items)
  {
    hide DenotesCells;
  }

  /** `jsonv_serialize`: -1 exactly when the value is no finite JSON value, else the length
      of its text, whatever the buffer; the buffer gets the NUL-terminated prefix. */
  method Serialize(h: Heap, fl: Floats, v: Value, buf: array?<byte>) returns (n: int)
    requires h.Valid() && InWorld(h.World(), v) && (buf != null ==> buf.Length > 0)
    modifies buf
    ensures h.Valid() && h.World() == old(h.World())
    ensures n == -1 <==> !Denotable(fl, h.World(), v)
    ensures forall j: J :: Denotes(fl, h.World(), v, j) ==> n == |Print(fl, j)|
    ensures buf != null && n >= 0 ==> forall j: J :: Denotes(fl, h.World(), v, j) ==>
              var m := if n < buf.Length then n else buf.Length - 1;
              m <= |Print(fl, j)| && buf[..m] == Print(fl, j)[..m] && buf[m] == 0
  {
    hide StateOk;
    hide Denotes;
    hide AllRefs;
    hide Print;
    hide WorldOk;
    ghost var w := h.World();
    StateParts(h.St());
    var wr := new JsonWriter(buf);
    ghost var j := SerializeVal(wr, h, fl, v, [], w);
    if wr.error {
      return -1;
    }
    forall k: J | Denotes(fl, w, v, k) ensures k == j {
      DenotesOne(fl, w, v, j, k);
    }
    assert [] + Print(fl, j) == Print(fl, j);
    if buf != null {
      var nullIdx := if wr.written < buf.Length then wr.written else buf.Length - 1;
      buf[nullIdx] := 0;
      assert buf[..nullIdx] == Print(fl, j)[..nullIdx];
    }
    n := wr.written;
  }

  // ---------------------------------------------------------------- when it fails

  /** A leaf that has no text. */
  ghost predicate Unwritable(fl: Floats, v: Value) {
    v.VPtr? || v.VUndefined? || v.VUnresolvable? || v.VImpossible? || (v.VDouble? && !fl.finite(v.d))
  }

  function Outermost(path: seq<Ref>, v: Value): Value {
    if path == [] then v else ValueOf(path[|path| - 1])
  }

  /** A way down from `root`, innermost container first, to `v` that ends badly: at a leaf
      without a text, or at a container it has passed before. */
  ghost predicate EndsBadly(fl: Floats, w: World, root: Value, path: seq<Ref>, v: Value) {
    && Chain(w, path, v) && Outermost(path, v) == root
    && (Unwritable(fl, v) || exists i :: 0 <= i < |path| && ValueOf(path[i]) == v)
  }

  lemma BadWayFails(fl: Floats, w: World, root: Value, path: seq<Ref>, v: Value)
    requires EndsBadly(fl, w, root, path, v)
    ensures !Denotable(fl, w, root)
  {
    hide Denotes;
    hide Chain;
    hide Size;
    forall j: J ensures !Denotes(fl, w, root, j) {
      BadWayDenotes(fl, w, root, path, v, j);
    }
  }

  lemma BadWayDenotes(fl: Floats, w: World, root: Value, path: seq<Ref>, v: Value, j: J)
    requires EndsBadly(fl, w, root, path, v)
    ensures !Denotes(fl, w, root, j)
  {
    hide Denotes;
    hide Chain;
    hide Size;
    if Denotes(fl, w, root, j) {
      if path != [] {
        ChainSmaller(fl, w, path, v, |path| - 1, j);
      }
      BadEndFails(fl, w, path, v);
    }
  }

  lemma BadEndFails(fl: Floats, w: World, path: seq<Ref>, v: Value)
    requires Chain(w, path, v) && (Unwritable(fl, v) || exists i :: 0 <= i < |path| && ValueOf(path[i]) == v)
    ensures forall j: J :: !Denotes(fl, w, v, j)
  {
    hide Denotes;
    hide Chain;
    if Unwritable(fl, v) {
      LeafFails(fl, w, v);
    } else {
      var i :| 0 <= i < |path| && ValueOf(path[i]) == v;
      CycleDenotesNothing(fl, w, path, v, i);
    }
  }

  lemma {:induction false} AllCells(fl: Floats, w: World, cells: seq<Value>) returns (items: seq<J>)
    requires forall v :: v in cells && !Absent(v) ==> Denotable(fl, w, v)
    ensures DenotesCells(fl, w, cells, items)
    decreases |cells|
  {
    hide Denotes;
    hide Absent;
    items := [];
    if cells != [] {
      var n := |cells| - 1;
      assert cells == cells[..n] + [cells[n]];
      var rest := AllCells(fl, w, cells[..n]);
      var j := JNull;
      if !Absent(cells[n]) {
        assert cells[n] in cells;
        j :| Denotes(fl, w, cells[n], j);
      }
      items := rest + [j];
      CellsCount(fl, w, cells[..n], rest);
      assert items[..n] == rest;
    }
  }

  lemma CellsCount(fl: Floats, w: World, cells: seq<Value>, items: seq<J>)
    requires DenotesCells(fl, w, cells, items)
    ensures |items| == |cells|
  {
    hide Denotes;
  }

  lemma {:induction false} AllFields(fl: Floats, w: World, keys: seq<bytes>, vals: seq<Value>) returns (fields: seq<Field>)
    requires |keys| == |vals| && forall v :: v in vals && !Absent(v) ==> Denotable(fl, w, v)
    ensures DenotesFields(fl, w, keys, vals, fields)
    decreases |vals|
  {
    hide Denotes;
    hide Absent;
    fields := [];
    if vals != [] {
      var n := |vals| - 1;
      assert vals == vals[..n] + [vals[n]];
      var rest := AllFields(fl, w, keys[..n], vals[..n]);
      fields := rest;
      if !Absent(vals[n]) {
        assert vals[n] in vals;
        var j: J :| Denotes(fl, w, vals[n], j);
        fields := rest + [Field(keys[n], j)];
        assert fields[..|fields| - 1] == rest;
      }
    }
  }

  /** A container with nothing unwritable inside has a text. */
  lemma ContainerDenotes(fl: Floats, w: World, r: Ref)
    requires WorldOk(w) && RefInWorld(w, r) && forall v :: Inside(w, r, v) ==> Denotable(fl, w, v)
    ensures Denotable(fl, w, ValueOf(r))
  {
    hide DenotesCells;
    hide DenotesFields;
    hide WorldOk;
    hide Denotable;
    match r {
      case ToObj(o) =>
        DictParts(w, o);
        forall v | v in w.dicts[o].vals && !Absent(v) ensures Denotable(fl, w, v) {
          assert Inside(w, r, v);
        }
        var fields := AllFields(fl, w, w.dicts[o].keys, w.dicts[o].vals);
        HasText(fl, w, ValueOf(r), JObj(fields));
      case ToArr(a) =>
        forall v | v in w.lists[a] && !Absent(v) ensures Denotable(fl, w, v) {
          assert Inside(w, r, v);
        }
        var items := AllCells(fl, w, w.lists[a]);
        HasText(fl, w, ValueOf(r), JArr(items));
    }
  }

  lemma HasText(fl: Floats, w: World, v: Value, j: J)
    requires Denotes(fl, w, v, j)
    ensures Denotable(fl, w, v)
  {
    hide Denotes;
  }

  /** A leaf is unwritable or has a text. */
  lemma LeafDenotes(fl: Floats, w: World, v: Value)
    requires RefOf(v).None? && !Unwritable(fl, v)
    ensures Denotable(fl, w, v)
  {
    hide DenotesCells;
    hide DenotesFields;
    hide CStr;
    hide Denotable;
    var j := match v
      case VBool(b) => JBool(b)
      case VInt(i) => JInt(i)
      case VDouble(d) => JNum(d)
      case VBignum(x) => JBig(if x.Some? then x.value else ZERO)
      case VString(s) => JStr(if s.Some? then CStr(s.value) else [])
      case _ => JNull;
    HasText(fl, w, v, j);
  }

  lemma InsideInWorld(w: World, r: Ref, v: Value)
    requires WorldOk(w) && Inside(w, r, v)
    ensures InWorld(w, v)
  {
    hide InWorld;
    hide Absent;
    match r {
      case ToObj(o) => assert DictOk(w.dicts[o]) && AllInWorld(w, w.dicts[o].vals);
      case ToArr(a) => assert AllInWorld(w, w.lists[a]);
    }
  }

  lemma RefValue(w: World, v: Value)
    ensures RefOf(v).Some? ==> ValueOf(RefOf(v).value) == v && (InWorld(w, v) ==> RefInWorld(w, RefOf(v).value))
  {
  }

  /** Below a value without a text there is a way down that ends badly. */
  lemma {:induction false} FindBadWay(fl: Floats, w: World, path: seq<Ref>, v: Value) returns (p: seq<Ref>, x: Value)
    requires WorldOk(w) && InWorld(w, v) && PathTo(w, path, v) && !Denotable(fl, w, v) && |path| <= |AllRefs(w)|
    ensures EndsBadly(fl, w, Outermost(path, v), p, x)
    decreases |AllRefs(w)| - |path|
  {
    hide WorldOk;
    hide Denotable;
    hide AllRefs;
    hide PathOf;
    hide Inside;
    hide Unwritable;
    hide Chain;
    p, x := path, v;
    RefValue(w, v);
    if RefOf(v).None? {
      if !Unwritable(fl, v) {
        LeafDenotes(fl, w, v);
      }
    } else {
      var r := RefOf(v).value;
      if r in path {
        var i :| 0 <= i < |path| && path[i] == r;
        assert ValueOf(path[i]) == v;
      } else {
        var c := BadChild(fl, w, r);
        InsideInWorld(w, r, c);
        DeeperPath(w, path, r, c);
        DeeperBound(w, path, r);
        p, x := FindBadWay(fl, w, [r] + path, c);
        assert Outermost([r] + path, c) == Outermost(path, v);
      }
    }
  }

  lemma BadChild(fl: Floats, w: World, r: Ref) returns (v: Value)
    requires WorldOk(w) && RefInWorld(w, r) && !Denotable(fl, w, ValueOf(r))
    ensures Inside(w, r, v) && !Denotable(fl, w, v)
  {
    hide WorldOk;
    hide Denotable;
    hide Inside;
    if forall v :: Inside(w, r, v) ==> Denotable(fl, w, v) {
      ContainerDenotes(fl, w, r);
    }
    v :| Inside(w, r, v) && !Denotable(fl, w, v);
  }

  /** A value has no text exactly when some way down from it comes to a leaf without a text
      or back to a container it has passed. */
  lemma FailsIff(fl: Floats, w: World, v: Value)
    requires WorldOk(w) && InWorld(w, v)
    ensures !Denotable(fl, w, v) <==> exists path: seq<Ref>, x: Value :: EndsBadly(fl, w, v, path, x)
  {
    hide WorldOk;
    hide Denotable;
    hide EndsBadly;
    hide AllRefs;
    hide InWorld;
    if !Denotable(fl, w, v) {
      EmptyPath(w, v);
      var p, x := FindBadWay(fl, w, [], v);
      assert EndsBadly(fl, w, v, p, x);
    }
    if path: seq<Ref>, x: Value :| EndsBadly(fl, w, v, path, x) {
      BadWayFails(fl, w, v, path, x);
    }
  }

  lemma EmptyPath(w: World, v: Value)
    ensures PathTo(w, [], v) && Outermost([], v) == v
  {
  }
}
