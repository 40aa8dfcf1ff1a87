/** `validate_bytecode` and the handlers that run subschemas
    (src/validation/validate.c, src/validation/validate_opcodes.c). */
module Interp {
  import opened Bytes
  import opened Ast
  import opened Unescape
  import opened Keywords
  import opened Semantics
  import opened Layout
  import opened Code
  import opened Agreement
  import opened PoolSizes
  import opened Walk
  import opened Placement
  import opened Emission
  import opened Compiler
  import opened Meaning
  import opened Equality
  import opened Vm
  import opened Running
  import opened Truth
  import opened NodeTruth
  import opened NodeEmission
  import opened Ready

  // ---------------------------------------------------------------- what is being run

  ghost function CtxOf(st: VMState): Ctx {
    Ctx(st.env, st.file, st.constants, st.offs, st.at, st.bound)
  }

  // ---------------------------------------------------------------- required

  /** `val` is the node of the value of the first live member of this name. */
  ghost predicate NamedAt(ms: seq<Member>, name: bytes, at: nat, val: int) {
    exists i :: 0 <= i < |ms| && KeyNotIn(ms, name, i) && !ms[i].keySkip && Text(ms[i].key) == name
                && val == at + PosOf(ms, i) + 1
  }

  lemma NamedHere(pool: seq<Node>, at: nat, ms: seq<Member>, i: nat, cur: nat, name: bytes)
    requires MemberCursor(pool, at, ms, i, cur) && i < |ms| && KeyNotIn(ms, name, i)
    requires !ms[i].keySkip && Text(ms[i].key) == name
    ensures NamedAt(ms, name, at, cur + 1)
  {
    hide MembersAt;
    hide Text;
    hide PosOf;
    hide KeyNotIn;
  }

  /** `find_property`: the value of the first live member of this name. */
  method FindProperty(pool: seq<Node>, at: nat, name: bytes, ghost d: Tree) returns (val: int)
    requires At(pool, at, d) && Sane(d) && d.Obj?
    ensures val != -1 <==> HasKey(d, name)
    ensures val != -1 ==> NamedAt(d.members, name, at, val)
  {
    hide *;
    ghost var ms := d.members;
    AtBound(pool, at, d);
    FirstMember(pool, at, d);
    var cur := pool[at].firstChild;
    ghost var i := 0;
    CursorEnd(pool, at, ms, 0, cur);
    NoKeyYet(ms, name);
    while cur != -1
      invariant i <= |ms| && MemberCursor(pool, at, ms, i, cur)
      invariant cur == -1 <==> i == |ms|
      invariant KeyNotIn(ms, name, i)
      decreases |ms| - i
    {
      MemberStep(pool, at, ms, i, cur);
      KeyFacts(pool, cur, ms[i]);
      SaneKey(d, i);
      KeyStep(d, name, i);
      if pool[cur].kind != AstSkipped {
        var text := DecodedText(pool[cur].tok);
        if text == name {
          NamedHere(pool, at, ms, i, cur, name);
          return pool[cur].nextSibling;
        }
      }
      cur := pool[pool[cur].nextSibling].nextSibling;
      i := i + 1;
      CursorEnd(pool, at, ms, i, cur);
    }
    KeyNowhere(d, name);
    val := -1;
  }

  ghost predicate KeyNotIn(ms: seq<Member>, name: bytes, i: nat) {
    i <= |ms| && forall l :: 0 <= l < i ==> ms[l].keySkip || Text(ms[l].key) != name
  }

  lemma NoKeyYet(ms: seq<Member>, name: bytes)
    ensures KeyNotIn(ms, name, 0)
  {
  }

  lemma KeyStep(d: Tree, name: bytes, i: nat)
    requires d.Obj? && KeyNotIn(d.members, name, i) && i < |d.members|
    ensures !d.members[i].keySkip && Text(d.members[i].key) == name ==> HasKey(d, name)
    ensures d.members[i].keySkip || Text(d.members[i].key) != name ==> KeyNotIn(d.members, name, i + 1)
  {
    hide Text;
  }

  lemma KeyNowhere(d: Tree, name: bytes)
    requires d.Obj? && KeyNotIn(d.members, name, |d.members|)
    ensures !HasKey(d, name)
  {
    hide Text;
  }

  lemma NamesAheadStep(file: bytes, pc: nat, constants: nat, names: seq<bytes>, i: nat, at: nat, tail: bytes)
    requires i < |names|
    requires Here(file, pc, EncNames(names[i..], at) + tail) && Here(file, constants + at, NamesData(names[i..]))
    ensures Here(file, pc, EncStr(names[i], at) + (EncNames(names[i + 1..], at + |names[i]|) + tail))
    ensures Here(file, constants + at, names[i])
    ensures Here(file, constants + (at + |names[i]|), NamesData(names[i + 1..]))
  {
    hide *;
    var s, rest := names[i], names[i + 1..];
    assert names[i..] == [s] + rest;
    NamesCons(s, rest, at);
    Regroup(EncStr(s, at), EncNames(rest, at + |s|), tail);
    HereSplit(file, constants + at, s, NamesData(rest));
  }

  lemma AllNames(names: seq<bytes>)
    ensures names[0..] == names
  {
  }

  lemma NamesOver(names: seq<bytes>, at: nat, tail: bytes)
    ensures EncNames(names[|names|..], at) + tail == tail
  {
    assert [] + tail == tail;
  }

  lemma SkipOver(file: bytes, pc: nat, bs: bytes, tail: bytes)
    requires Here(file, pc, bs + tail)
    ensures Here(file, pc + |bs|, tail)
  {
    hide Here;
    HereSplit(file, pc, bs, tail);
  }

  ghost predicate HasKeysUpTo(d: Tree, names: seq<bytes>, i: nat)
    requires d.Obj?
  {
    i <= |names| && forall j :: 0 <= j < i ==> HasKey(d, CStr(names[j]))
  }

  lemma HasKeysStep(d: Tree, names: seq<bytes>, i: nat)
    requires d.Obj?
    ensures HasKeysUpTo(d, names, 0)
    ensures HasKeysUpTo(d, names, i) && i < |names| && HasKey(d, CStr(names[i])) ==> HasKeysUpTo(d, names, i + 1)
  {
    hide HasKey;
    hide CStr;
  }

  lemma RequiredMeans(env: Env, count: nat, names: seq<bytes>, d: Tree)
    ensures !d.Obj? ==> InstrHolds(env, RequiredI(count, names), d)
    ensures d.Obj? ==> (InstrHolds(env, RequiredI(count, names), d) <==> HasKeysUpTo(d, names, |names|))
    ensures d.Obj? ==> forall i :: 0 <= i < |names| && !HasKey(d, CStr(names[i])) ==> !InstrHolds(env, RequiredI(count, names), d)
  {
    hide HasKey;
    hide CStr;
  }

  /** `handle_required`. */
  method HandleRequired(st: VMState, ghost names: seq<bytes>, ghost at: nat, ghost tail: bytes, ghost d: Tree) returns (ok: bool)
    requires Here(st.file, st.pc, U32(Wrap32(|names|)) + (EncNames(names, at) + tail))
    requires Here(st.file, st.constants + at, NamesData(names)) && |st.file| < 0x8000_0000 && Subject(st, d)
    modifies st`pc
    ensures ok == InstrHolds(st.env, RequiredI(|names|, names), d)
    ensures ok ==> Here(st.file, st.pc, tail)
  {
    hide *;
    Small(st.file, st.pc, |names|, U32(Wrap32(|names|)) + (EncNames(names, at) + tail));
    var count := st.ReadU32(Wrap32(|names|), EncNames(names, at) + tail);
    SubjectNode(st, d);
    RequiredMeans(st.env, |names|, names, d);
    if st.pool[st.node].kind != AstObject {
      SkipOver(st.file, st.pc, EncNames(names, at), tail);
      var n: nat := count;
      st.pc := st.pc + n * 8;
      return true;
    }
    var i: nat := 0;
    ghost var place: nat := at;
    AllNames(names);
    HasKeysStep(d, names, 0);
    while i < count
      invariant i <= count == |names|
      invariant Here(st.file, st.pc, EncNames(names[i..], place) + tail)
      invariant Here(st.file, st.constants + place, NamesData(names[i..]))
      invariant HasKeysUpTo(d, names, i)
    {
      NamesAheadStep(st.file, st.pc, st.constants, names, i, place, tail);
      var name := st.ReadText(names[i], place, EncNames(names[i + 1..], place + |names[i]|) + tail);
      var val := FindProperty(st.pool, st.node, CStr(name), d);
      if val == -1 {
        return false;
      }
      HasKeysStep(d, names, i);
      place := place + |names[i]|;
      i := i + 1;
    }
    NamesOver(names, place, tail);
    ok := true;
  }

  // ---------------------------------------------------------------- decoding property rules

  /** `DecodedPropertyRule`. */
  datatype Decoded = Decoded(name: bytes, offset: uint32)

  ghost predicate Decodes(c: Ctx, out: seq<Decoded>, rules: seq<Rule>, n: nat) {
    && |out| == n <= |rules|
    && forall j :: 0 <= j < n ==> out[j] == Decoded(rules[j].name, Offset(c.offs, c.at, rules[j].ref))
  }

  lemma DecodesStep(c: Ctx, out: seq<Decoded>, rules: seq<Rule>, n: nat)
    requires Decodes(c, out, rules, n) && n < |rules|
    ensures Decodes(c, out + [Decoded(rules[n].name, Offset(c.offs, c.at, rules[n].ref))], rules, n + 1)
  {
    hide Offset;
  }

  lemma DecodesNone(c: Ctx, rules: seq<Rule>)
    ensures Decodes(c, [], rules, 0) && rules[0..] == rules
  {
  }

  lemma RulesAheadStep(file: bytes, pc: nat, constants: nat, offs: seq<nat>, at: nat, rules: seq<Rule>, i: nat, place: nat, tail: bytes)
    requires i < |rules|
    requires Here(file, pc, EncRules(offs, at, rules[i..], place) + tail) && Here(file, constants + place, RulesData(rules[i..]))
    ensures Here(file, pc, EncStr(rules[i].name, place)
                           + (U32(Offset(offs, at, rules[i].ref)) + (EncRules(offs, at, rules[i + 1..], place + |rules[i].name|) + tail)))
    ensures Here(file, constants + place, rules[i].name)
    ensures Here(file, constants + (place + |rules[i].name|), RulesData(rules[i + 1..]))
  {
    hide *;
    var r, rest := rules[i], rules[i + 1..];
    var more := EncRules(offs, at, rest, place + |r.name|);
    assert rules[i..] == [r] + rest;
    RulesCons(offs, at, r, rest, place);
    Regroup(EncStr(r.name, place), U32(Offset(offs, at, r.ref)), more);
    Regroup(EncStr(r.name, place), U32(Offset(offs, at, r.ref)) + more, tail);
    Regroup(U32(Offset(offs, at, r.ref)), more, tail);
    HereSplit(file, constants + place, r.name, RulesData(rest));
  }

  lemma RulesOver(offs: seq<nat>, at: nat, rules: seq<Rule>, place: nat, tail: bytes)
    ensures EncRules(offs, at, rules[|rules|..], place) + tail == tail
  {
    assert [] + tail == tail;
  }

  /** The loop that decodes `count` rules. */
  method ReadRules(st: VMState, count: uint32, ghost rules: seq<Rule>, ghost place: nat, ghost tail: bytes) returns (out: seq<Decoded>)
    requires Here(st.file, st.pc, EncRules(st.offs, st.at, rules, place) + tail) && count == |rules|
    requires Here(st.file, st.constants + place, RulesData(rules)) && |st.file| < 0x8000_0000
    modifies st`pc
    ensures Decodes(CtxOf(st), out, rules, |rules|) && Here(st.file, st.pc, tail)
  {
    hide *;
    CtxIs(st);
    ghost var c := CtxOf(st);
    out := [];
    DecodesNone(c, rules);
    var k: nat := 0;
    ghost var d: nat := place;
    while k < count
      invariant k <= |rules| == count
      invariant Here(st.file, st.pc, EncRules(st.offs, st.at, rules[k..], d) + tail)
      invariant Here(st.file, st.constants + d, RulesData(rules[k..]))
      invariant Decodes(c, out, rules, k)
    {
      RulesAheadStep(st.file, st.pc, st.constants, st.offs, st.at, rules, k, d, tail);
      ghost var r := rules[k];
      ghost var more := EncRules(st.offs, st.at, rules[k + 1..], d + |r.name|) + tail;
      var name := st.ReadText(r.name, d, U32(Offset(st.offs, st.at, r.ref)) + more);
      var offset := st.ReadU32(Offset(st.offs, st.at, r.ref), more);
      DecodesStep(c, out, rules, k);
      out := out + [Decoded(name, offset)];
      d := d + |r.name|;
      k := k + 1;
    }
    RulesOver(st.offs, st.at, rules, d, tail);
  }

  lemma CtxIs(st: VMState)
    ensures CtxOf(st) == Ctx(st.env, st.file, st.constants, st.offs, st.at, st.bound)
  {
  }

  lemma DecodesAt(c: Ctx, out: seq<Decoded>, rules: seq<Rule>, j: nat)
    requires Decodes(c, out, rules, |rules|) && j < |rules|
    ensures |out| == |rules| && out[j].name == rules[j].name && out[j].offset == Offset(c.offs, c.at, rules[j].ref)
  {
    hide Offset;
  }

  // ---------------------------------------------------------------- running subschemas

  /** A nested run on another value or the same. */
  method RunSub(st: VMState, offset: uint32, node: nat, ghost r: Ref, ghost x: Tree) returns (ok: bool)
    requires FileOk(st.file, st.constants) && RefReady(CtxOf(st), r) && offset == Offset(st.offs, st.at, r)
    requires At(st.pool, node, x) && Sane(x)
    ensures ok == Accepts(st.env, r.sub, x)
    decreases Len(r.sub), 10
  {
    hide *;
    CtxIs(st);
    RefReadyIs(CtxOf(st), r);
    ok := ValidateBytecode(st.env, st.file, st.pool, offset, node, st.constants, st.offs, st.at + r.rel, r.sub, x);
  }

  ghost predicate ItemsAccepted(env: Env, v: Tree, items: seq<Tree>, i: nat) {
    i <= |items| && forall j :: 0 <= j < i ==> Accepts(env, v, items[j])
  }

  lemma ItemsAcceptedStep(env: Env, v: Tree, d: Tree, i: nat)
    requires d.Arr?
    ensures ItemsAccepted(env, v, d.items, 0)
    ensures ItemsAccepted(env, v, d.items, i) && i < |d.items| && Accepts(env, v, d.items[i]) ==> ItemsAccepted(env, v, d.items, i + 1)
    ensures i < |d.items| && !Accepts(env, v, d.items[i]) ==> !ItemsOk(env, v, d)
    ensures ItemsAccepted(env, v, d.items, |d.items|) ==> ItemsOk(env, v, d)
  {
    hide Accepts;
  }

  lemma NotArray(env: Env, v: Tree, d: Tree)
    requires !d.Arr?
    ensures ItemsOk(env, v, d) && ContainsOk(env, v, d)
  {
  }

  /** `handle_items`. */
  method HandleItems(st: VMState, ghost ref: Ref, ghost tail: bytes, ghost d: Tree) returns (ok: bool)
    requires FileOk(st.file, st.constants) && RefReady(CtxOf(st), ref) && Subject(st, d)
    requires Here(st.file, st.pc, U32(Offset(st.offs, st.at, ref)) + tail)
    modifies st`pc
    ensures ok == ItemsOk(st.env, ref.sub, d) && Here(st.file, st.pc, tail)
    decreases st.bound, 1
  {
    hide *;
    var offset := st.ReadU32(Offset(st.offs, st.at, ref), tail);
    SubjectNode(st, d);
    CtxIs(st);
    RefReadyIs(CtxOf(st), ref);
    if st.pool[st.node].kind != AstArray {
      NotArray(st.env, ref.sub, d);
      return true;
    }
    ghost var xs := d.items;
    FirstItem(st.pool, st.node, d);
    ItemsAcceptedStep(st.env, ref.sub, d, 0);
    var child := st.pool[st.node].firstChild;
    ghost var i := 0;
    ItemCursorEnd(st.pool, st.node, xs, 0, child);
    while child != -1
      invariant i <= |xs| && ItemCursor(st.pool, st.node, xs, i, child)
      invariant child == -1 <==> i == |xs|
      invariant ItemsAccepted(st.env, ref.sub, xs, i)
      invariant Here(st.file, st.pc, tail)
      decreases |xs| - i
    {
      ItemStep(st.pool, st.node, xs, i, child);
      SaneItem(d, i);
      var one := RunSub(st, offset, child, ref, xs[i]);
      ItemsAcceptedStep(st.env, ref.sub, d, i);
      if !one {
        return false;
      }
      child := st.pool[child].nextSibling;
      i := i + 1;
      ItemCursorEnd(st.pool, st.node, xs, i, child);
    }
    ItemsAcceptedStep(st.env, ref.sub, d, i);
    ok := true;
  }

  ghost predicate NoneAccepted(env: Env, v: Tree, items: seq<Tree>, i: nat) {
    i <= |items| && forall j :: 0 <= j < i ==> !Accepts(env, v, items[j])
  }

  lemma NoneAcceptedStep(env: Env, v: Tree, d: Tree, i: nat)
    requires d.Arr?
    ensures NoneAccepted(env, v, d.items, 0)
    ensures NoneAccepted(env, v, d.items, i) && i < |d.items| && !Accepts(env, v, d.items[i]) ==> NoneAccepted(env, v, d.items, i + 1)
    ensures i < |d.items| && Accepts(env, v, d.items[i]) ==> ContainsOk(env, v, d)
    ensures NoneAccepted(env, v, d.items, |d.items|) ==> !ContainsOk(env, v, d)
  {
    hide Accepts;
  }

  /** `handle_contains`. */
  method HandleContains(st: VMState, ghost ref: Ref, ghost tail: bytes, ghost d: Tree) returns (ok: bool)
    requires FileOk(st.file, st.constants) && RefReady(CtxOf(st), ref) && Subject(st, d)
    requires Here(st.file, st.pc, U32(Offset(st.offs, st.at, ref)) + tail)
    modifies st`pc
    ensures ok == ContainsOk(st.env, ref.sub, d) && Here(st.file, st.pc, tail)
    decreases st.bound, 1
  {
    hide *;
    var offset := st.ReadU32(Offset(st.offs, st.at, ref), tail);
    SubjectNode(st, d);
    CtxIs(st);
    RefReadyIs(CtxOf(st), ref);
    if st.pool[st.node].kind != AstArray {
      NotArray(st.env, ref.sub, d);
      return true;
    }
    ghost var xs := d.items;
    FirstItem(st.pool, st.node, d);
    NoneAcceptedStep(st.env, ref.sub, d, 0);
    var child := st.pool[st.node].firstChild;
    ghost var i := 0;
    ItemCursorEnd(st.pool, st.node, xs, 0, child);
    while child != -1
      invariant i <= |xs| && ItemCursor(st.pool, st.node, xs, i, child)
      invariant child == -1 <==> i == |xs|
      invariant NoneAccepted(st.env, ref.sub, xs, i)
      invariant Here(st.file, st.pc, tail)
      decreases |xs| - i
    {
      ItemStep(st.pool, st.node, xs, i, child);
      SaneItem(d, i);
      ItemNodes(st.pool, child, xs[i]);
      NoneAcceptedStep(st.env, ref.sub, d, i);
      if st.pool[child].kind != AstSkipped {
        var one := RunSub(st, offset, child, ref, xs[i]);
        if one {
          return true;
        }
      }
      child := st.pool[child].nextSibling;
      i := i + 1;
      ItemCursorEnd(st.pool, st.node, xs, i, child);
    }
    NoneAcceptedStep(st.env, ref.sub, d, i);
    ok := false;
  }

  /** `handle_not`. */
  method HandleNot(st: VMState, ghost ref: Ref, ghost tail: bytes, ghost d: Tree) returns (ok: bool)
    requires FileOk(st.file, st.constants) && RefReady(CtxOf(st), ref) && Subject(st, d)
    requires Here(st.file, st.pc, U32(Offset(st.offs, st.at, ref)) + tail)
    modifies st`pc
    ensures ok == !Accepts(st.env, ref.sub, d) && Here(st.file, st.pc, tail)
    decreases st.bound, 1
  {
    hide *;
    var offset := st.ReadU32(Offset(st.offs, st.at, ref), tail);
    SubjectNode(st, d);
    CtxIs(st);
    RefReadyIs(CtxOf(st), ref);
    var passed := RunSub(st, offset, st.node, ref, d);
    ok := !passed;
  }

  ghost predicate KeysAccepted(env: Env, v: Tree, ms: seq<Member>, i: nat) {
    i <= |ms| && forall j :: 0 <= j < i && !ms[j].keySkip ==> Accepts(env, v, Leaf(false, ms[j].key))
  }

  lemma KeysAcceptedStep(env: Env, v: Tree, d: Tree, i: nat)
    requires d.Obj?
    ensures KeysAccepted(env, v, d.members, 0)
    ensures (KeysAccepted(env, v, d.members, i) && i < |d.members|
             && (d.members[i].keySkip || Accepts(env, v, Leaf(false, d.members[i].key)))) ==> KeysAccepted(env, v, d.members, i + 1)
    ensures i < |d.members| && !d.members[i].keySkip && !Accepts(env, v, Leaf(false, d.members[i].key)) ==> !NamesOk(env, v, d)
    ensures KeysAccepted(env, v, d.members, |d.members|) ==> NamesOk(env, v, d)
  {
    hide Accepts;
  }

  lemma NotObject(env: Env, v: Tree, d: Tree)
    requires !d.Obj?
    ensures NamesOk(env, v, d)
  {
  }

  /** `handle_property_names`: the key node itself is the value that is checked. */
  method HandlePropertyNames(st: VMState, ghost ref: Ref, ghost tail: bytes, ghost d: Tree) returns (ok: bool)
    requires FileOk(st.file, st.constants) && RefReady(CtxOf(st), ref) && Subject(st, d)
    requires Here(st.file, st.pc, U32(Offset(st.offs, st.at, ref)) + tail)
    modifies st`pc
    ensures ok == NamesOk(st.env, ref.sub, d) && Here(st.file, st.pc, tail)
    decreases st.bound, 1
  {
    hide *;
    var offset := st.ReadU32(Offset(st.offs, st.at, ref), tail);
    SubjectNode(st, d);
    CtxIs(st);
    RefReadyIs(CtxOf(st), ref);
    if st.pool[st.node].kind != AstObject {
      NotObject(st.env, ref.sub, d);
      return true;
    }
    ghost var ms := d.members;
    FirstMember(st.pool, st.node, d);
    KeysAcceptedStep(st.env, ref.sub, d, 0);
    var cur := st.pool[st.node].firstChild;
    ghost var i := 0;
    CursorEnd(st.pool, st.node, ms, 0, cur);
    while cur != -1
      invariant i <= |ms| && MemberCursor(st.pool, st.node, ms, i, cur)
      invariant cur == -1 <==> i == |ms|
      invariant KeysAccepted(st.env, ref.sub, ms, i)
      invariant Here(st.file, st.pc, tail)
      decreases |ms| - i
    {
      MemberStep(st.pool, st.node, ms, i, cur);
      KeyFacts(st.pool, cur, ms[i]);
      SaneKey(d, i);
      KeysAcceptedStep(st.env, ref.sub, d, i);
      if st.pool[cur].kind != AstSkipped {
        KeyAsLeaf(st.pool, cur, ms[i]);
        var one := RunSub(st, offset, cur, ref, Leaf(false, ms[i].key));
        if !one {
          return false;
        }
      }
      cur := st.pool[st.pool[cur].nextSibling].nextSibling;
      i := i + 1;
      CursorEnd(st.pool, st.node, ms, i, cur);
    }
    KeysAcceptedStep(st.env, ref.sub, d, i);
    ok := true;
  }

  // ---------------------------------------------------------------- allOf, anyOf, oneOf

  lemma RefsAheadStep(file: bytes, pc: nat, offs: seq<nat>, at: nat, refs: seq<Ref>, i: nat, tail: bytes)
    requires i < |refs| && Here(file, pc, EncRefs(offs, at, refs[i..]) + tail)
    ensures Here(file, pc, U32(Offset(offs, at, refs[i])) + (EncRefs(offs, at, refs[i + 1..]) + tail))
  {
    hide Here;
    hide U32;
    hide Offset;
    assert refs[i..][0] == refs[i] && refs[i..][1..] == refs[i + 1..];
    Regroup(U32(Offset(offs, at, refs[i])), EncRefs(offs, at, refs[i + 1..]), tail);
  }

  lemma RefsOver(offs: seq<nat>, at: nat, refs: seq<Ref>, tail: bytes)
    ensures refs[0..] == refs && EncRefs(offs, at, refs[|refs|..]) + tail == tail
  {
    assert [] + tail == tail;
  }

  ghost predicate AllUpTo(env: Env, refs: seq<Ref>, d: Tree, i: nat) {
    i <= |refs| && forall j :: 0 <= j < i ==> Accepts(env, refs[j].sub, d)
  }

  ghost predicate AnyUpTo(env: Env, refs: seq<Ref>, d: Tree, i: nat) {
    i <= |refs| && exists j :: 0 <= j < i && Accepts(env, refs[j].sub, d)
  }

  lemma AllStep(env: Env, refs: seq<Ref>, d: Tree, i: nat)
    requires i < |refs|
    ensures AllUpTo(env, refs, d, i + 1) <==> AllUpTo(env, refs, d, i) && Accepts(env, refs[i].sub, d)
    ensures AnyUpTo(env, refs, d, i + 1) <==> AnyUpTo(env, refs, d, i) || Accepts(env, refs[i].sub, d)
  {
    hide Accepts;
  }

  lemma AllEnds(env: Env, refs: seq<Ref>, d: Tree)
    ensures AllUpTo(env, refs, d, 0) && !AnyUpTo(env, refs, d, 0)
    ensures AllUpTo(env, refs, d, |refs|) <==> ManyHolds(env, KAllOf, refs, d)
    ensures AnyUpTo(env, refs, d, |refs|) <==> ManyHolds(env, KAnyOf, refs, d)
  {
    hide Accepts;
    hide Passing;
  }

  lemma PassingStep(env: Env, refs: seq<Ref>, d: Tree, i: nat)
    requires i < |refs|
    ensures Passing(env, refs[..i + 1], d) == Passing(env, refs[..i], d) + (if Accepts(env, refs[i].sub, d) then 1 else 0)
  {
    hide Accepts;
    assert refs[..i + 1][..i] == refs[..i] && refs[..i + 1][i] == refs[i];
  }

  lemma PassingEnds(env: Env, refs: seq<Ref>, d: Tree)
    ensures Passing(env, refs[..0], d) == 0
    ensures refs[..|refs|] == refs && (ManyHolds(env, KOneOf, refs, d) <==> Passing(env, refs, d) == 1)
  {
    hide Accepts;
  }

  /** `handle_all_of`: every operand is read, but nothing runs after a failure. */
  method HandleAllOf(st: VMState, ghost refs: seq<Ref>, ghost tail: bytes, ghost d: Tree) returns (ok: bool)
    requires FileOk(st.file, st.constants) && RefsReady(CtxOf(st), refs) && Subject(st, d)
    requires Here(st.file, st.pc, U32(Wrap32(|refs|)) + (EncRefs(st.offs, st.at, refs) + tail))
    modifies st`pc
    ensures ok == ManyHolds(st.env, KAllOf, refs, d) && Here(st.file, st.pc, tail)
    decreases st.bound, 1
  {
    hide *;
    CtxIs(st);
    SubjectNode(st, d);
    FileSmall(st.file, st.constants);
    Small(st.file, st.pc, |refs|, U32(Wrap32(|refs|)) + (EncRefs(st.offs, st.at, refs) + tail));
    var count := st.ReadU32(Wrap32(|refs|), EncRefs(st.offs, st.at, refs) + tail);
    RefsOver(st.offs, st.at, refs, tail);
    AllEnds(st.env, refs, d);
    ok := true;
    var i: nat := 0;
    while i < count
      invariant i <= count == |refs|
      invariant Here(st.file, st.pc, EncRefs(st.offs, st.at, refs[i..]) + tail)
      invariant ok <==> AllUpTo(st.env, refs, d, i)
    {
      RefsAheadStep(st.file, st.pc, st.offs, st.at, refs, i, tail);
      RefsReadyAt(CtxOf(st), refs, i);
      RefReadyIs(CtxOf(st), refs[i]);
      AllStep(st.env, refs, d, i);
      var offset := st.ReadU32(Offset(st.offs, st.at, refs[i]), EncRefs(st.offs, st.at, refs[i + 1..]) + tail);
      if ok {
        ok := RunSub(st, offset, st.node, refs[i], d);
      }
      i := i + 1;
    }
  }

  /** `handle_any_of`. */
  method HandleAnyOf(st: VMState, ghost refs: seq<Ref>, ghost tail: bytes, ghost d: Tree) returns (ok: bool)
    requires FileOk(st.file, st.constants) && RefsReady(CtxOf(st), refs) && Subject(st, d)
    requires Here(st.file, st.pc, U32(Wrap32(|refs|)) + (EncRefs(st.offs, st.at, refs) + tail))
    modifies st`pc
    ensures ok == ManyHolds(st.env, KAnyOf, refs, d) && Here(st.file, st.pc, tail)
    decreases st.bound, 1
  {
    hide *;
    CtxIs(st);
    SubjectNode(st, d);
    FileSmall(st.file, st.constants);
    Small(st.file, st.pc, |refs|, U32(Wrap32(|refs|)) + (EncRefs(st.offs, st.at, refs) + tail));
    var count := st.ReadU32(Wrap32(|refs|), EncRefs(st.offs, st.at, refs) + tail);
    RefsOver(st.offs, st.at, refs, tail);
    AllEnds(st.env, refs, d);
    ok := false;
    var i: nat := 0;
    while i < count
      invariant i <= count == |refs|
      invariant Here(st.file, st.pc, EncRefs(st.offs, st.at, refs[i..]) + tail)
      invariant ok <==> AnyUpTo(st.env, refs, d, i)
    {
      RefsAheadStep(st.file, st.pc, st.offs, st.at, refs, i, tail);
      RefsReadyAt(CtxOf(st), refs, i);
      RefReadyIs(CtxOf(st), refs[i]);
      AllStep(st.env, refs, d, i);
      var offset := st.ReadU32(Offset(st.offs, st.at, refs[i]), EncRefs(st.offs, st.at, refs[i + 1..]) + tail);
      if !ok {
        ok := RunSub(st, offset, st.node, refs[i], d);
      }
      i := i + 1;
    }
  }

  /** `handle_one_of`: runs every subschema and counts. */
  method HandleOneOf(st: VMState, ghost refs: seq<Ref>, ghost tail: bytes, ghost d: Tree) returns (ok: bool)
    requires FileOk(st.file, st.constants) && RefsReady(CtxOf(st), refs) && Subject(st, d)
    requires Here(st.file, st.pc, U32(Wrap32(|refs|)) + (EncRefs(st.offs, st.at, refs) + tail))
    modifies st`pc
    ensures ok == ManyHolds(st.env, KOneOf, refs, d) && Here(st.file, st.pc, tail)
    decreases st.bound, 1
  {
    hide *;
    CtxIs(st);
    SubjectNode(st, d);
    FileSmall(st.file, st.constants);
    Small(st.file, st.pc, |refs|, U32(Wrap32(|refs|)) + (EncRefs(st.offs, st.at, refs) + tail));
    var count := st.ReadU32(Wrap32(|refs|), EncRefs(st.offs, st.at, refs) + tail);
    RefsOver(st.offs, st.at, refs, tail);
    PassingEnds(st.env, refs, d);
    var passed: nat := 0;
    var i: nat := 0;
    while i < count
      invariant i <= count == |refs|
      invariant Here(st.file, st.pc, EncRefs(st.offs, st.at, refs[i..]) + tail)
      invariant passed == Passing(st.env, refs[..i], d)
    {
      RefsAheadStep(st.file, st.pc, st.offs, st.at, refs, i, tail);
      RefsReadyAt(CtxOf(st), refs, i);
      RefReadyIs(CtxOf(st), refs[i]);
      PassingStep(st.env, refs, d, i);
      var offset := st.ReadU32(Offset(st.offs, st.at, refs[i]), EncRefs(st.offs, st.at, refs[i + 1..]) + tail);
      var one := RunSub(st, offset, st.node, refs[i], d);
      if one {
        passed := passed + 1;
      }
      i := i + 1;
    }
    ok := passed == 1;
  }

  // ---------------------------------------------------------------- if, then, else

  lemma OptOffsetIs(offs: seq<nat>, at: nat, r: Option<Ref>)
    ensures r.Some? ==> OptOffset(offs, at, r) == Offset(offs, at, r.value)
    ensures r.None? ==> OptOffset(offs, at, r) == NO_OFFSET
  {
    hide Offset;
  }

  /** An offset of -1 means there is nothing to run: no branch, or one that accepts all. */
  lemma NothingToRun(c: Ctx, r: Option<Ref>, d: Tree)
    requires OptReady(c, r) && FileOk(c.file, c.constants) && OptOffset(c.offs, c.at, r) == NO_OFFSET
    ensures BranchHolds(c.env, r, d)
  {
    hide *;
    BranchIs(c.env, r, d);
    OptReadyIs(c, r);
    OptOffsetIs(c.offs, c.at, r);
    if r.Some? {
      RefReadyIs(c, r.value);
      ReachedNowhere(c.env, c.file, c.constants, c.offs, c.at + r.value.rel, r.value.sub);
      InvalidAccepts(c.env, r.value.sub, d);
    }
  }

  lemma BranchIs(env: Env, r: Option<Ref>, d: Tree)
    ensures r.None? ==> BranchHolds(env, r, d)
    ensures r.Some? ==> BranchHolds(env, r, d) == Accepts(env, r.value.sub, d)
  {
    hide Accepts;
  }

  lemma ReachedNowhere(env: Env, file: bytes, constants: nat, offs: seq<nat>, at: nat, s: Tree)
    requires Reached(env, file, constants, offs, at, s, NO_OFFSET) && FileOk(file, constants)
    ensures !ValidSub(s)
  {
    if ValidSub(s) {
      hide *;
      ReachedCases(env, file, constants, offs, at, s, NO_OFFSET);
      FileSmall(file, constants);
      PlacedInside(env, file[..constants], file[constants..], offs, at, s);
      NoOffsetIs();
    }
  }

  lemma IfMeans(env: Env, cond: Ref, thn: Option<Ref>, els: Option<Ref>, d: Tree)
    ensures InstrHolds(env, IfI(cond, thn, els), d)
         == if Accepts(env, cond.sub, d) then BranchHolds(env, thn, d) else BranchHolds(env, els, d)
  {
    hide Accepts;
    hide BranchHolds;
  }

  method RunBranch(st: VMState, offset: uint32, ghost r: Option<Ref>, ghost d: Tree) returns (ok: bool)
    requires FileOk(st.file, st.constants) && OptReady(CtxOf(st), r) && Subject(st, d) && offset == OptOffset(st.offs, st.at, r)
    ensures ok == BranchHolds(st.env, r, d)
    decreases st.bound, 1
  {
    hide *;
    CtxIs(st);
    SubjectNode(st, d);
    NoOffsetIs();
    OptReadyIs(CtxOf(st), r);
    OptOffsetIs(st.offs, st.at, r);
    BranchIs(st.env, r, d);
    if offset == 0xFFFF_FFFF {
      NothingToRun(CtxOf(st), r, d);
      return true;
    }
    RefReadyIs(CtxOf(st), r.value);
    ok := RunSub(st, offset, st.node, r.value, d);
  }

  /** `handle_if_then_else`. */
  method HandleIf(st: VMState, ghost cond: Ref, ghost thn: Option<Ref>, ghost els: Option<Ref>, ghost tail: bytes, ghost d: Tree) returns (ok: bool)
    requires FileOk(st.file, st.constants) && Subject(st, d)
    requires RefReady(CtxOf(st), cond) && OptReady(CtxOf(st), thn) && OptReady(CtxOf(st), els)
    requires Here(st.file, st.pc, U32(Offset(st.offs, st.at, cond)) + (U32(OptOffset(st.offs, st.at, thn)) + (U32(OptOffset(st.offs, st.at, els)) + tail)))
    modifies st`pc
    ensures ok == InstrHolds(st.env, IfI(cond, thn, els), d) && Here(st.file, st.pc, tail)
    decreases st.bound, 2
  {
    hide *;
    CtxIs(st);
    SubjectNode(st, d);
    RefReadyIs(CtxOf(st), cond);
    IfMeans(st.env, cond, thn, els, d);
    var ifOffset := st.ReadU32(Offset(st.offs, st.at, cond), U32(OptOffset(st.offs, st.at, thn)) + (U32(OptOffset(st.offs, st.at, els)) + tail));
    var thenOffset := st.ReadU32(OptOffset(st.offs, st.at, thn), U32(OptOffset(st.offs, st.at, els)) + tail);
    var elseOffset := st.ReadU32(OptOffset(st.offs, st.at, els), tail);
    var passed := RunSub(st, ifOffset, st.node, cond, d);
    if passed {
      ok := RunBranch(st, thenOffset, thn, d);
    } else {
      ok := RunBranch(st, elseOffset, els, d);
    }
  }

  // ---------------------------------------------------------------- properties

  lemma FirstRuleStep(rules: seq<Rule>, name: bytes, p: nat)
    requires p <= FirstRule(rules, name) && p < |rules|
    ensures rules[p].name == name ==> FirstRule(rules, name) == p
    ensures rules[p].name != name ==> p + 1 <= FirstRule(rules, name)
  {
    hide FirstRule;
  }

  /** The first rule of that name runs, if there is one. */
  method MatchProps(st: VMState, text: bytes, props: seq<Decoded>, val: nat, ghost rules: seq<Rule>, ghost x: Tree)
    returns (ok: bool, matched: bool)
    requires FileOk(st.file, st.constants) && RulesReady(CtxOf(st), rules) && Decodes(CtxOf(st), props, rules, |rules|)
    requires At(st.pool, val, x) && Sane(x)
    ensures matched <==> FirstRule(rules, text) < |rules|
    ensures matched ==> ok == Accepts(st.env, rules[FirstRule(rules, text)].ref.sub, x)
    ensures !matched ==> ok
    decreases st.bound, 1
  {
    hide *;
    CtxIs(st);
    DecodesLen(CtxOf(st), props, rules);
    var p: nat := 0;
    while p < |props|
      invariant p <= |props| == |rules|
      invariant p <= FirstRule(rules, text)
    {
      DecodesAt(CtxOf(st), props, rules, p);
      FirstRuleStep(rules, text, p);
      if text == props[p].name {
        RulesReadyAt(CtxOf(st), rules, p);
        RefReadyIs(CtxOf(st), rules[p].ref);
        ok := RunSub(st, props[p].offset, val, rules[p].ref, x);
        return ok, true;
      }
      p := p + 1;
    }
    return true, false;
  }

  lemma DecodesLen(c: Ctx, out: seq<Decoded>, rules: seq<Rule>)
    requires Decodes(c, out, rules, |rules|)
    ensures |out| == |rules|
  {
    hide Offset;
  }

  ghost predicate PatternsUpTo(env: Env, rules: seq<Rule>, key: bytes, x: Tree, p: nat) {
    p <= |rules| && forall q :: 0 <= q < p ==> PatternHolds(env, rules[q], key, x)
  }

  ghost predicate MatchUpTo(env: Env, rules: seq<Rule>, key: bytes, p: nat) {
    p <= |rules| && exists q :: 0 <= q < p && RuleMatch(env, rules[q], key) == Match
  }

  lemma PatternStep(env: Env, rules: seq<Rule>, key: bytes, x: Tree, p: nat)
    requires p < |rules|
    ensures PatternsUpTo(env, rules, key, x, p) && PatternHolds(env, rules[p], key, x) ==> PatternsUpTo(env, rules, key, x, p + 1)
    ensures !PatternHolds(env, rules[p], key, x) ==> !PatternsUpTo(env, rules, key, x, |rules|)
    ensures MatchUpTo(env, rules, key, p + 1) <==> MatchUpTo(env, rules, key, p) || RuleMatch(env, rules[p], key) == Match
    ensures PatternHolds(env, rules[p], key, x)
         == match env.regex(CStr(rules[p].name), CStr(key))
            case Match => Accepts(env, rules[p].ref.sub, x)
            case NoMatch => true
            case NoCompile => false
    ensures RuleMatch(env, rules[p], key) == env.regex(CStr(rules[p].name), CStr(key))
  {
    hide Accepts;
    hide CStr;
  }

  lemma PatternStart(env: Env, rules: seq<Rule>, key: bytes, x: Tree)
    ensures PatternsUpTo(env, rules, key, x, 0) && !MatchUpTo(env, rules, key, 0)
  {
    hide PatternHolds;
    hide RuleMatch;
  }

  /** Every pattern that matches runs; one that does not compile fails the object. */
  method MatchPatterns(st: VMState, text: bytes, pats: seq<Decoded>, val: nat, ghost rules: seq<Rule>, ghost x: Tree)
    returns (ok: bool, matched: bool)
    requires FileOk(st.file, st.constants) && RulesReady(CtxOf(st), rules) && Decodes(CtxOf(st), pats, rules, |rules|)
    requires At(st.pool, val, x) && Sane(x)
    ensures ok == PatternsUpTo(st.env, rules, text, x, |rules|)
    ensures ok ==> matched == MatchUpTo(st.env, rules, text, |rules|)
    decreases st.bound, 1
  {
    hide *;
    CtxIs(st);
    DecodesLen(CtxOf(st), pats, rules);
    PatternStart(st.env, rules, text, x);
    matched := false;
    var p: nat := 0;
    while p < |pats|
      invariant p <= |pats| == |rules|
      invariant PatternsUpTo(st.env, rules, text, x, p)
      invariant matched == MatchUpTo(st.env, rules, text, p)
    {
      DecodesAt(CtxOf(st), pats, rules, p);
      PatternStep(st.env, rules, text, x, p);
      match st.env.regex(CStr(pats[p].name), CStr(text)) {
        case Match =>
          matched := true;
          RulesReadyAt(CtxOf(st), rules, p);
          RefReadyIs(CtxOf(st), rules[p].ref);
          var one := RunSub(st, pats[p].offset, val, rules[p].ref, x);
          if !one {
            return false, true;
          }
        case NoMatch =>
        case NoCompile =>
          return false, matched;
      }
      p := p + 1;
    }
    ok := true;
  }

  lemma AddValue(c: Ctx, add: AddRule, v: uint32)
    requires AddReady(c, add) && FileOk(c.file, c.constants) && v == EncAdd(c.offs, c.at, add)
    ensures add.Allowed? ==> ToI32(v) == -1
    ensures add.Denied? ==> ToI32(v) == -2
    ensures add.Checked? ==> RefReady(c, add.ref) && v == Offset(c.offs, c.at, add.ref) && ToI32(v) == v && v < 0x8000_0000
  {
    hide FileOk;
    hide RefReady;
    hide ValidSub;
    hide Offset;
    if add.Checked? {
      ValidInside(c, add.ref);
    }
  }

  lemma ValidInside(c: Ctx, r: Ref)
    requires RefReady(c, r) && ValidSub(r.sub) && FileOk(c.file, c.constants)
    ensures Offset(c.offs, c.at, r) < 0x8000_0000
  {
    hide *;
    RefReadyIs(c, r);
    ReachedCases(c.env, c.file, c.constants, c.offs, c.at + r.rel, r.sub, Offset(c.offs, c.at, r));
    FileSmall(c.file, c.constants);
    PlacedInside(c.env, c.file[..c.constants], c.file[c.constants..], c.offs, c.at + r.rel, r.sub);
  }

  lemma MemberMeans(env: Env, add: AddRule, props: seq<Rule>, pats: seq<Rule>, key: bytes, x: Tree)
    ensures MemberHolds(env, add, props, pats, key, x) <==>
            && (FirstRule(props, key) < |props| ==> Accepts(env, props[FirstRule(props, key)].ref.sub, x))
            && PatternsUpTo(env, pats, key, x, |pats|)
            && (FirstRule(props, key) < |props| || MatchUpTo(env, pats, key, |pats|) || AddHolds(env, add, x))
    ensures add.Allowed? ==> AddHolds(env, add, x)
    ensures add.Denied? ==> !AddHolds(env, add, x)
    ensures add.Checked? ==> AddHolds(env, add, x) == Accepts(env, add.ref.sub, x)
  {
    hide Accepts;
    hide PatternHolds;
    hide RuleMatch;
    hide FirstRule;
  }

  /** One live member against the rules. */
  method CheckMember(st: VMState, text: bytes, val: nat, props: seq<Decoded>, pats: seq<Decoded>, rule: int32,
                     ghost add: AddRule, ghost rs: seq<Rule>, ghost qs: seq<Rule>, ghost x: Tree) returns (ok: bool)
    requires FileOk(st.file, st.constants) && RulesReady(CtxOf(st), rs) && RulesReady(CtxOf(st), qs) && AddReady(CtxOf(st), add)
    requires Decodes(CtxOf(st), props, rs, |rs|) && Decodes(CtxOf(st), pats, qs, |qs|)
    requires rule == ToI32(EncAdd(st.offs, st.at, add))
    requires At(st.pool, val, x) && Sane(x)
    ensures ok == MemberHolds(st.env, add, rs, qs, text, x)
    decreases st.bound, 2
  {
    hide *;
    CtxIs(st);
    MemberMeans(st.env, add, rs, qs, text, x);
    AddValue(CtxOf(st), add, EncAdd(st.offs, st.at, add));
    var okProps, matchedProps := MatchProps(st, text, props, val, rs, x);
    if !okProps {
      return false;
    }
    var okPats, matchedPats := MatchPatterns(st, text, pats, val, qs, x);
    if !okPats {
      return false;
    }
    if !matchedProps && !matchedPats {
      if rule == -2 {
        return false;
      } else if rule >= 0 {
        RefReadyIs(CtxOf(st), add.ref);
        ok := RunSub(st, rule, val, add.ref, x);
        return ok;
      }
    }
    ok := true;
  }

  ghost predicate MembersUpTo(env: Env, add: AddRule, rs: seq<Rule>, qs: seq<Rule>, ms: seq<Member>, i: nat) {
    i <= |ms| && forall j :: 0 <= j < i && !ms[j].keySkip ==> MemberHolds(env, add, rs, qs, Text(ms[j].key), ms[j].val)
  }

  lemma MembersStep(env: Env, add: AddRule, rs: seq<Rule>, qs: seq<Rule>, d: Tree, i: nat)
    requires d.Obj?
    ensures MembersUpTo(env, add, rs, qs, d.members, 0)
    ensures (MembersUpTo(env, add, rs, qs, d.members, i) && i < |d.members|
             && (d.members[i].keySkip || MemberHolds(env, add, rs, qs, Text(d.members[i].key), d.members[i].val)))
            ==> MembersUpTo(env, add, rs, qs, d.members, i + 1)
    ensures (i < |d.members| && !d.members[i].keySkip && !MemberHolds(env, add, rs, qs, Text(d.members[i].key), d.members[i].val))
            ==> !PropsHold(env, add, rs, qs, d)
    ensures MembersUpTo(env, add, rs, qs, d.members, |d.members|) ==> PropsHold(env, add, rs, qs, d)
  {
    hide MemberHolds;
    hide Text;
  }

  lemma PropsElse(env: Env, add: AddRule, rs: seq<Rule>, qs: seq<Rule>, d: Tree)
    requires !d.Obj?
    ensures PropsHold(env, add, rs, qs, d)
  {
  }

  /** The loop of `handle_properties` over the members of the object. */
  method CheckMembers(st: VMState, props: seq<Decoded>, pats: seq<Decoded>, rule: int32,
                      ghost add: AddRule, ghost rs: seq<Rule>, ghost qs: seq<Rule>, ghost d: Tree) returns (ok: bool)
    requires FileOk(st.file, st.constants) && RulesReady(CtxOf(st), rs) && RulesReady(CtxOf(st), qs) && AddReady(CtxOf(st), add)
    requires Decodes(CtxOf(st), props, rs, |rs|) && Decodes(CtxOf(st), pats, qs, |qs|)
    requires rule == ToI32(EncAdd(st.offs, st.at, add)) && Subject(st, d)
    ensures ok == PropsHold(st.env, add, rs, qs, d)
    decreases st.bound, 3
  {
    hide *;
    SubjectNode(st, d);
    if st.pool[st.node].kind != AstObject {
      PropsElse(st.env, add, rs, qs, d);
      return true;
    }
    ghost var ms := d.members;
    FirstMember(st.pool, st.node, d);
    MembersStep(st.env, add, rs, qs, d, 0);
    var cur := st.pool[st.node].firstChild;
    ghost var i := 0;
    CursorEnd(st.pool, st.node, ms, 0, cur);
    while cur != -1
      invariant i <= |ms| && MemberCursor(st.pool, st.node, ms, i, cur)
      invariant cur == -1 <==> i == |ms|
      invariant MembersUpTo(st.env, add, rs, qs, ms, i)
      decreases |ms| - i
    {
      MemberStep(st.pool, st.node, ms, i, cur);
      KeyFacts(st.pool, cur, ms[i]);
      SaneKey(d, i);
      MembersStep(st.env, add, rs, qs, d, i);
      var val := st.pool[cur].nextSibling;
      if st.pool[cur].kind != AstSkipped {
        var text := DecodedText(st.pool[cur].tok);
        var one := CheckMember(st, text, val, props, pats, rule, add, rs, qs, ms[i].val);
        if !one {
          return false;
        }
      }
      cur := st.pool[val].nextSibling;
      i := i + 1;
      CursorEnd(st.pool, st.node, ms, i, cur);
    }
    MembersStep(st.env, add, rs, qs, d, i);
    ok := true;
  }

  lemma PropsMeans(env: Env, add: AddRule, rs: seq<Rule>, qs: seq<Rule>, d: Tree)
    ensures InstrHolds(env, PropsI(|rs|, |qs|, add, rs, qs), d) == PropsHold(env, add, rs, qs, d)
  {
    hide PropsHold;
  }

  lemma TwoTexts(file: bytes, at: nat, a: bytes, b: bytes)
    requires Here(file, at, a + b)
    ensures Here(file, at, a) && Here(file, at + |a|, b)
  {
    hide Here;
    HereSplit(file, at, a, b);
  }

  /** The operands of `OP_PROPERTIES`. */
  function PropsArgs(offs: seq<nat>, at: nat, add: AddRule, rs: seq<Rule>, qs: seq<Rule>, place: nat, tail: bytes): bytes {
    U32(Wrap32(|rs|)) + (U32(Wrap32(|qs|)) + (U32(EncAdd(offs, at, add))
    + (EncRules(offs, at, rs, place) + (EncRules(offs, at, qs, place + |RulesData(rs)|) + tail))))
  }

  lemma FitsSmall(file: bytes, pc: nat, a: bytes, n: nat, b: bytes)
    requires Here(file, pc, a + b) && |file| < 0x8000_0000 && n <= |b|
    ensures Wrap32(n) == n
  {
  }

  /** `handle_properties`. */
  method HandleProperties(st: VMState, ghost add: AddRule, ghost rs: seq<Rule>, ghost qs: seq<Rule>, ghost place: nat,
                          ghost tail: bytes, ghost d: Tree) returns (ok: bool)
    requires FileOk(st.file, st.constants) && RulesReady(CtxOf(st), rs) && RulesReady(CtxOf(st), qs) && AddReady(CtxOf(st), add)
    requires Here(st.file, st.pc, PropsArgs(st.offs, st.at, add, rs, qs, place, tail)) && Subject(st, d)
    requires Here(st.file, st.constants + place, RulesData(rs) + RulesData(qs))
    modifies st`pc
    ensures ok == InstrHolds(st.env, PropsI(|rs|, |qs|, add, rs, qs), d)
    ensures ok ==> Here(st.file, st.pc, tail)
    decreases st.bound, 4
  {
    hide *;
    FileSmall(st.file, st.constants);
    CtxIs(st);
    PropsMeans(st.env, add, rs, qs, d);
    ghost var e1 := EncRules(st.offs, st.at, rs, place);
    ghost var e2 := EncRules(st.offs, st.at, qs, place + |RulesData(rs)|);
    ghost var v := EncAdd(st.offs, st.at, add);
    PropsArgsIs(st.offs, st.at, add, rs, qs, place, tail);
    FitsSmall(st.file, st.pc, U32(Wrap32(|rs|)), |rs|, U32(Wrap32(|qs|)) + (U32(v) + (e1 + (e2 + tail))));
    FitsSmall(st.file, st.pc, U32(Wrap32(|rs|)), |qs|, U32(Wrap32(|qs|)) + (U32(v) + (e1 + (e2 + tail))));
    TwoTexts(st.file, st.constants + place, RulesData(rs), RulesData(qs));
    var propCount := st.ReadU32(Wrap32(|rs|), U32(Wrap32(|qs|)) + (U32(v) + (e1 + (e2 + tail))));
    var patCount := st.ReadU32(Wrap32(|qs|), U32(v) + (e1 + (e2 + tail)));
    var u := st.ReadU32(v, e1 + (e2 + tail));
    var rule := ToI32(u);
    var props := ReadRules(st, propCount, rs, place, e2 + tail);
    var pats := ReadRules(st, patCount, qs, place + |RulesData(rs)|, tail);
    ok := CheckMembers(st, props, pats, rule, add, rs, qs, d);
  }

  lemma PropsArgsIs(offs: seq<nat>, at: nat, add: AddRule, rs: seq<Rule>, qs: seq<Rule>, place: nat, tail: bytes)
    ensures PropsArgs(offs, at, add, rs, qs, place, tail)
         == U32(Wrap32(|rs|)) + (U32(Wrap32(|qs|)) + (U32(EncAdd(offs, at, add))
            + (EncRules(offs, at, rs, place) + (EncRules(offs, at, qs, place + |RulesData(rs)|) + tail))))
    ensures |EncRules(offs, at, rs, place)| >= |rs|
    ensures |EncRules(offs, at, qs, place + |RulesData(rs)|)| >= |qs|
  {
    hide U32;
    hide EncRules;
    hide RulesData;
    hide Wrap32;
  }

  // ---------------------------------------------------------------- dispatch

  /** The handler table: which keyword's handler an opcode selects. */
  function HandlerOf(op: byte): Kw {
    match op
    case 2 => KType
    case 3 => KMinimum
    case 4 => KMaximum
    case 5 => KMinLength
    case 6 => KMaxLength
    case 7 => KMinItems
    case 8 => KMaxItems
    case 9 => KItems
    case 10 => KRequired
    case 11 => KProperties
    case 12 => KMultipleOf
    case 13 => KExclusiveMinimum
    case 14 => KExclusiveMaximum
    case 15 => KPattern
    case 16 => KMinProperties
    case 17 => KMaxProperties
    case 18 => KUniqueItems
    case 19 => KContains
    case 20 => KNot
    case 21 => KAllOf
    case 22 => KAnyOf
    case 23 => KOneOf
    case 24 => KIf
    case 25 => KPropertyNames
    case 26 => KFormat
    case _ => KUnknown
  }

  function InstrKw(i: Instr): Kw {
    match i
    case TypeI(_) => KType
    case NumI(k, _) => k
    case CountI(k, _) => k
    case UniqueI => KUniqueItems
    case StrI(k, _) => k
    case SubI(k, _) => k
    case ManyI(k, _, _) => k
    case IfI(_, _, _) => KIf
    case RequiredI(_, _) => KRequired
    case PropsI(_, _, _, _, _) => KProperties
  }

  lemma OpcodesMatch(k: Kw)
    ensures OpCode(k) != 0 ==> HandlerOf(OpCode(k)) == k
  {
  }

  lemma InstrKinds(c: Ctx, i: Instr)
    requires InstrReady(c, i)
    ensures OpCode(InstrKw(i)) > 1
    ensures InstrKw(i) == KType ==> i.TypeI?
    ensures IsNumKw(InstrKw(i)) ==> i.NumI? && i.k == InstrKw(i)
    ensures IsIntKw(InstrKw(i)) ==> i.CountI? && i.k == InstrKw(i)
    ensures InstrKw(i) == KUniqueItems ==> i.UniqueI?
    ensures InstrKw(i) == KPattern || InstrKw(i) == KFormat ==> i.StrI? && i.k == InstrKw(i)
    ensures InstrKw(i) == KItems || InstrKw(i) == KContains || InstrKw(i) == KNot || InstrKw(i) == KPropertyNames
            ==> i.SubI? && i.k == InstrKw(i) && RefReady(c, i.ref)
    ensures InstrKw(i) == KAllOf || InstrKw(i) == KAnyOf || InstrKw(i) == KOneOf
            ==> i.ManyI? && i.k == InstrKw(i) && i.count == |i.refs| && RefsReady(c, i.refs)
    ensures InstrKw(i) == KIf ==> i.IfI? && RefReady(c, i.cond) && OptReady(c, i.thn) && OptReady(c, i.els)
    ensures InstrKw(i) == KRequired ==> i.RequiredI? && i.count == |i.names|
    ensures InstrKw(i) == KProperties
            ==> i.PropsI? && i.propCount == |i.props| && i.patCount == |i.pats|
                && RulesReady(c, i.props) && RulesReady(c, i.pats) && AddReady(c, i.add)
  {
    hide RefReady;
    hide OptReady;
    hide RulesReady;
    hide AddReady;
  }

  /** The operands of an instruction, followed by `tail`. */
  function ArgsThen(offs: seq<nat>, at: nat, i: Instr, place: nat, tail: bytes): bytes {
    match i
    case TypeI(types) => U32(MaskOf(types)) + tail
    case NumI(_, bits) => U64(bits) + tail
    case CountI(_, n) => U32(FromI32(n)) + tail
    case UniqueI => tail
    case StrI(_, s) => EncStr(s, place) + tail
    case SubI(_, ref) => U32(Offset(offs, at, ref)) + tail
    case ManyI(_, count, refs) => U32(Wrap32(count)) + (EncRefs(offs, at, refs) + tail)
    case IfI(cond, thn, els) =>
      U32(Offset(offs, at, cond)) + (U32(OptOffset(offs, at, thn)) + (U32(OptOffset(offs, at, els)) + tail))
    case RequiredI(count, names) => U32(Wrap32(count)) + (EncNames(names, place) + tail)
    case PropsI(_, _, add, props, pats) => PropsArgs(offs, at, add, props, pats, place, tail)
  }

  lemma Split2(op: bytes, a: bytes, tail: bytes)
    ensures op + a + tail == op + (a + tail)
  {
    Regroup(op, a, tail);
  }

  lemma Split3(op: bytes, a: bytes, b: bytes, tail: bytes)
    ensures op + a + b + tail == op + (a + (b + tail))
  {
    Split2(op + a, b, tail);
    Split2(op, a, b + tail);
  }

  lemma Split4(op: bytes, a: bytes, b: bytes, c: bytes, tail: bytes)
    ensures op + a + b + c + tail == op + (a + (b + (c + tail)))
  {
    Split2(op + a + b, c, tail);
    Split3(op, a, b, c + tail);
  }

  lemma Split6(op: bytes, a: bytes, b: bytes, c: bytes, e: bytes, f: bytes, tail: bytes)
    ensures op + a + b + c + e + f + tail == op + (a + (b + (c + (e + (f + tail)))))
  {
    Split3(op + a + b + c, e, f, tail);
    Split4(op, a, b, c, e + (f + tail));
  }

  lemma SimpleSplit(offs: seq<nat>, at: nat, i: Instr, place: nat, tail: bytes)
    requires i.TypeI? || i.NumI? || i.CountI? || i.UniqueI? || i.StrI? || i.SubI?
    ensures Enc(offs, at, i, place) + tail == [OpCode(InstrKw(i))] + ArgsThen(offs, at, i, place, tail)
  {
    hide U32;
    hide U64;
    hide MaskOf;
    hide FromI32;
    hide EncStr;
    hide Offset;
    hide OpCode;
    match i {
      case TypeI(types) => Split2([OpCode(KType)], U32(MaskOf(types)), tail);
      case NumI(k, bits) => Split2([OpCode(k)], U64(bits), tail);
      case CountI(k, n) => Split2([OpCode(k)], U32(FromI32(n)), tail);
      case UniqueI =>
      case StrI(k, s) => Split2([OpCode(k)], EncStr(s, place), tail);
      case SubI(k, ref) => Split2([OpCode(k)], U32(Offset(offs, at, ref)), tail);
      case _ =>
    }
  }

  lemma ListSplit(offs: seq<nat>, at: nat, i: Instr, place: nat, tail: bytes)
    requires i.ManyI? || i.RequiredI? || i.IfI?
    ensures Enc(offs, at, i, place) + tail == [OpCode(InstrKw(i))] + ArgsThen(offs, at, i, place, tail)
  {
    hide U32;
    hide Wrap32;
    hide EncRefs;
    hide EncNames;
    hide Offset;
    hide OptOffset;
    hide OpCode;
    match i {
      case ManyI(k, count, refs) => Split3([OpCode(k)], U32(Wrap32(count)), EncRefs(offs, at, refs), tail);
      case RequiredI(count, names) => Split3([OpCode(KRequired)], U32(Wrap32(count)), EncNames(names, place), tail);
      case IfI(cond, thn, els) =>
        Split4([OpCode(KIf)], U32(Offset(offs, at, cond)), U32(OptOffset(offs, at, thn)), U32(OptOffset(offs, at, els)), tail);
      case _ =>
    }
  }

  lemma PropsSplit(offs: seq<nat>, at: nat, add: AddRule, rs: seq<Rule>, qs: seq<Rule>, place: nat, tail: bytes)
    ensures Enc(offs, at, PropsI(|rs|, |qs|, add, rs, qs), place) + tail
         == [OpCode(KProperties)] + PropsArgs(offs, at, add, rs, qs, place, tail)
  {
    hide *;
    var head := [OpCode(KProperties)] + U32(Wrap32(|rs|)) + U32(Wrap32(|qs|)) + U32(EncAdd(offs, at, add));
    PropsForm(offs, at, place, |rs|, |qs|, add, rs, qs, head);
    PropsArgsIs(offs, at, add, rs, qs, place, tail);
    Split6([OpCode(KProperties)], U32(Wrap32(|rs|)), U32(Wrap32(|qs|)), U32(EncAdd(offs, at, add)),
           EncRules(offs, at, rs, place), EncRules(offs, at, qs, place + |RulesData(rs)|), tail);
  }

  /** An instruction's bytes are its opcode and its operands. */
  lemma EncSplit(c: Ctx, i: Instr, place: nat, tail: bytes)
    requires InstrReady(c, i)
    ensures Enc(c.offs, c.at, i, place) + tail == [OpCode(InstrKw(i))] + ArgsThen(c.offs, c.at, i, place, tail)
  {
    hide *;
    match i {
      case PropsI(np, npp, add, rs, qs) =>
        InstrKinds(c, i);
        KwOfProps(i);
        PropsSplit(c.offs, c.at, add, rs, qs, place, tail);
        ArgsOfProps(c.offs, c.at, i, place, tail);
      case ManyI(_, _, _) => ListSplit(c.offs, c.at, i, place, tail);
      case RequiredI(_, _) => ListSplit(c.offs, c.at, i, place, tail);
      case IfI(_, _, _) => ListSplit(c.offs, c.at, i, place, tail);
      case _ => SimpleSplit(c.offs, c.at, i, place, tail);
    }
  }

  lemma KwOfProps(i: Instr)
    requires i.PropsI?
    ensures InstrKw(i) == KProperties
  {
  }

  lemma ArgsOfProps(offs: seq<nat>, at: nat, i: Instr, place: nat, tail: bytes)
    requires i.PropsI?
    ensures ArgsThen(offs, at, i, place, tail) == PropsArgs(offs, at, i.add, i.props, i.pats, place, tail)
  {
    hide PropsArgs;
  }

  lemma ArgsForms(offs: seq<nat>, at: nat, i: Instr, place: nat, tail: bytes)
    ensures i.TypeI? ==> ArgsThen(offs, at, i, place, tail) == U32(MaskOf(i.types)) + tail
    ensures i.NumI? ==> ArgsThen(offs, at, i, place, tail) == U64(i.bits) + tail
    ensures i.CountI? ==> ArgsThen(offs, at, i, place, tail) == U32(FromI32(i.n)) + tail
    ensures i.UniqueI? ==> ArgsThen(offs, at, i, place, tail) == tail
    ensures i.StrI? ==> ArgsThen(offs, at, i, place, tail) == EncStr(i.s, place) + tail
    ensures i.SubI? ==> ArgsThen(offs, at, i, place, tail) == U32(Offset(offs, at, i.ref)) + tail
    ensures i.ManyI? ==> ArgsThen(offs, at, i, place, tail) == U32(Wrap32(i.count)) + (EncRefs(offs, at, i.refs) + tail)
    ensures i.IfI? ==>
              ArgsThen(offs, at, i, place, tail)
              == U32(Offset(offs, at, i.cond)) + (U32(OptOffset(offs, at, i.thn)) + (U32(OptOffset(offs, at, i.els)) + tail))
    ensures i.RequiredI? ==> ArgsThen(offs, at, i, place, tail) == U32(Wrap32(i.count)) + (EncNames(i.names, place) + tail)
  {
    hide U32;
    hide U64;
    hide MaskOf;
    hide FromI32;
    hide EncStr;
    hide Offset;
    hide OptOffset;
    hide EncRefs;
    hide EncNames;
    hide Wrap32;
  }

  lemma DataForms(i: Instr)
    ensures i.StrI? ==> DataOf(i) == i.s
    ensures i.RequiredI? ==> DataOf(i) == NamesData(i.names)
    ensures i.PropsI? ==> DataOf(i) == RulesData(i.props) + RulesData(i.pats)
  {
    hide NamesData;
    hide RulesData;
  }

  lemma HoldForms(env: Env, i: Instr, d: Tree)
    ensures i.TypeI? ==> InstrHolds(env, i, d) == HasType(env, i.types, d)
    ensures i.NumI? ==> InstrHolds(env, i, d) == NumberOk(env, i.k, i.bits, d)
    ensures i.CountI? ==> InstrHolds(env, i, d) == CountOk(i.k, i.n, d)
    ensures i.UniqueI? ==> InstrHolds(env, i, d) == Unique(env, d)
    ensures i.StrI? ==> InstrHolds(env, i, d) == StringOk(env, i.k, i.s, d)
    ensures i.SubI? && i.k == KItems ==> InstrHolds(env, i, d) == ItemsOk(env, i.ref.sub, d)
    ensures i.SubI? && i.k == KContains ==> InstrHolds(env, i, d) == ContainsOk(env, i.ref.sub, d)
    ensures i.SubI? && i.k == KNot ==> InstrHolds(env, i, d) == !Accepts(env, i.ref.sub, d)
    ensures i.SubI? && i.k == KPropertyNames ==> InstrHolds(env, i, d) == NamesOk(env, i.ref.sub, d)
    ensures i.ManyI? ==> InstrHolds(env, i, d) == ManyHolds(env, i.k, i.refs, d)
  {
    hide HasType;
    hide NumberOk;
    hide CountOk;
    hide Unique;
    hide StringOk;
    hide ItemsOk;
    hide ContainsOk;
    hide Accepts;
    hide NamesOk;
    hide ManyHolds;
    hide PropsHold;
    hide BranchHolds;
    hide HasKey;
  }

  /** What every handler call needs. */
  ghost predicate AtInstr(st: VMState, i: Instr, place: nat, tail: bytes, d: Tree)
    reads st
  {
    && FileOk(st.file, st.constants) && InstrReady(CtxOf(st), i) && Subject(st, d)
    && Here(st.file, st.pc, ArgsThen(st.offs, st.at, i, place, tail))
    && Here(st.file, st.constants + place, DataOf(i))
  }

  lemma AtInstrMeans(st: VMState, i: Instr, place: nat, tail: bytes, d: Tree)
    requires AtInstr(st, i, place, tail, d)
    ensures FileOk(st.file, st.constants) && InstrReady(CtxOf(st), i) && Subject(st, d)
    ensures Here(st.file, st.pc, ArgsThen(st.offs, st.at, i, place, tail))
    ensures Here(st.file, st.constants + place, DataOf(i)) && |st.file| < 0x8000_0000
  {
    hide InstrReady;
    hide Subject;
    hide Here;
    hide ArgsThen;
    hide DataOf;
    hide Header;
  }

  /** Handlers of instructions that look at the value only. */
  method ExecuteLocal(st: VMState, k: Kw, ghost i: Instr, ghost place: nat, ghost tail: bytes, ghost d: Tree) returns (ok: bool)
    requires AtInstr(st, i, place, tail, d) && k == InstrKw(i)
    requires k == KType || IsNumKw(k) || IsIntKw(k) || k == KUniqueItems || k == KPattern || k == KFormat || k == KRequired
    modifies st`pc
    ensures ok == InstrHolds(st.env, i, d)
    ensures ok ==> Here(st.file, st.pc, tail)
  {
    hide *;
    AtInstrMeans(st, i, place, tail, d);
    InstrKinds(CtxOf(st), i);
    ArgsForms(st.offs, st.at, i, place, tail);
    DataForms(i);
    HoldForms(st.env, i, d);
    if k == KType {
      ok := HandleType(st, i.types, tail, d);
    } else if IsNumKw(k) {
      ok := HandleNumber(st, k, i.bits, tail, d);
    } else if IsIntKw(k) {
      ok := HandleCount(st, k, i.n, tail, d);
    } else if k == KUniqueItems {
      ok := HandleUnique(st, d);
    } else if k == KPattern {
      ok := HandlePattern(st, i.s, place, tail, d);
    } else if k == KFormat {
      ok := HandleFormat(st, i.s, place, tail, d);
    } else {
      ok := HandleRequired(st, i.names, place, tail, d);
    }
  }

  /** Handlers of instructions that run subschemas. */
  method ExecuteNested(st: VMState, k: Kw, ghost i: Instr, ghost place: nat, ghost tail: bytes, ghost d: Tree) returns (ok: bool)
    requires AtInstr(st, i, place, tail, d) && k == InstrKw(i)
    requires k == KItems || k == KContains || k == KNot || k == KPropertyNames || k == KAllOf || k == KAnyOf || k == KOneOf
             || k == KIf || k == KProperties
    modifies st`pc
    ensures ok == InstrHolds(st.env, i, d)
    ensures ok ==> Here(st.file, st.pc, tail)
    decreases st.bound, 5
  {
    hide *;
    AtInstrMeans(st, i, place, tail, d);
    InstrKinds(CtxOf(st), i);
    ArgsForms(st.offs, st.at, i, place, tail);
    DataForms(i);
    HoldForms(st.env, i, d);
    if k == KItems {
      ok := HandleItems(st, i.ref, tail, d);
    } else if k == KContains {
      ok := HandleContains(st, i.ref, tail, d);
    } else if k == KNot {
      ok := HandleNot(st, i.ref, tail, d);
    } else if k == KPropertyNames {
      ok := HandlePropertyNames(st, i.ref, tail, d);
    } else if k == KAllOf {
      ok := HandleAllOf(st, i.refs, tail, d);
    } else if k == KAnyOf {
      ok := HandleAnyOf(st, i.refs, tail, d);
    } else if k == KOneOf {
      ok := HandleOneOf(st, i.refs, tail, d);
    } else if k == KIf {
      ok := HandleIf(st, i.cond, i.thn, i.els, tail, d);
    } else {
      ArgsOfProps(st.offs, st.at, i, place, tail);
      ok := HandleProperties(st, i.add, i.props, i.pats, place, tail, d);
    }
  }

  // ---------------------------------------------------------------- the loop

  /** The rest of a block: the instructions from `ins` on, then the last byte. */
  ghost predicate Ahead(c: Ctx, pc: nat, ins: seq<Instr>, place: nat, last: byte) {
    && Here(c.file, pc, EncAll(c.offs, c.at, ins, place) + [last])
    && Here(c.file, c.constants + place, DataAll(ins))
  }

  lemma AheadNext(c: Ctx, pc: nat, ins: seq<Instr>, k: nat, place: nat, last: byte)
    requires k < |ins| && Ahead(c, pc, ins[k..], place, last) && InstrReady(c, ins[k])
    ensures var i, rest := ins[k], EncAll(c.offs, c.at, ins[k + 1..], place + |DataOf(ins[k])|) + [last];
            && Here(c.file, pc, [OpCode(InstrKw(i))] + ArgsThen(c.offs, c.at, i, place, rest))
            && Here(c.file, c.constants + place, DataOf(i))
            && Here(c.file, c.constants + (place + |DataOf(i)|), DataAll(ins[k + 1..]))
  {
    hide *;
    var i := ins[k];
    var more := ins[k + 1..];
    assert ins[k..] == [i] + more;
    AheadMeans(c, pc, [i] + more, place, last);
    EncAllCons(c.offs, c.at, i, more, place);
    var rest := EncAll(c.offs, c.at, more, place + |DataOf(i)|);
    Regroup(Enc(c.offs, c.at, i, place), rest, [last]);
    EncSplit(c, i, place, rest + [last]);
    HereSplit(c.file, c.constants + place, DataOf(i), DataAll(more));
  }

  lemma AheadMeans(c: Ctx, pc: nat, ins: seq<Instr>, place: nat, last: byte)
    ensures Ahead(c, pc, ins, place, last) <==>
            Here(c.file, pc, EncAll(c.offs, c.at, ins, place) + [last]) && Here(c.file, c.constants + place, DataAll(ins))
  {
    hide EncAll;
    hide DataAll;
    hide Here;
  }

  lemma AheadLast(c: Ctx, pc: nat, ins: seq<Instr>, place: nat, last: byte)
    requires Ahead(c, pc, ins[|ins|..], place, last)
    ensures Here(c.file, pc, [last] + [])
  {
    assert ins[|ins|..] == [];
    assert EncAll(c.offs, c.at, [], place) == [];
    assert [] + [last] == [last] + [];
  }

  lemma AheadStart(c: Ctx, s: Tree, code: bytes, pool: bytes) returns (place: nat)
    requires Standing(c, s) && code == c.file[..c.constants] && pool == c.file[c.constants..]
    ensures c.at < |c.offs|
    ensures Ahead(c, c.offs[c.at], NodeInstrs(c.env, s)[0..], place, if IsFalse(s) then OP_FAIL else OP_END)
  {
    hide *;
    StandingMeans(c, s);
    PlacedParts(c.env, code, pool, c.offs, c.at, s);
    place := BlockPlace(c.env, code, pool, c.offs, c.at, s);
    NodeForms(c.env, c.offs, c.at, s, place);
    BlockForm(c.env, c.offs, c.at, s, place);
    InFile(c.file, c.constants, c.offs[c.at], EncNode(c.env, c.offs, c.at, s, place), place, DataAll(NodeInstrs(c.env, s)));
    AheadMeans(c, c.offs[c.at], NodeInstrs(c.env, s), place, if IsFalse(s) then OP_FAIL else OP_END);
    assert NodeInstrs(c.env, s)[0..] == NodeInstrs(c.env, s);
  }

  lemma BlockPlace(env: Env, code: bytes, pool: bytes, offs: seq<nat>, at: nat, t: Tree) returns (d: nat)
    requires at < |offs| && BlockAt(env, code, pool, offs, at, t)
    ensures Here(code, offs[at], EncNode(env, offs, at, t, d)) && Here(pool, d, DataAll(NodeInstrs(env, t)))
  {
    hide EncNode;
    hide DataAll;
    hide NodeInstrs;
    hide Here;
    d :| BlockWith(env, code, pool, offs, at, t, d);
  }

  lemma BlockForm(env: Env, offs: seq<nat>, at: nat, t: Tree, d: nat)
    ensures EncNode(env, offs, at, t, d)
         == EncAll(offs, at, NodeInstrs(env, t), d) + [if IsFalse(t) then OP_FAIL else OP_END]
  {
    hide InstrsOf;
    if IsFalse(t) {
      assert EncAll(offs, at, [], d) == [];
      assert [] + [OP_FAIL] == [OP_FAIL];
    } else {
      hide EncAll;
      hide NodeInstrs;
    }
  }

  lemma InFile(file: bytes, constants: nat, pc: nat, code: bytes, place: nat, data: bytes)
    requires constants <= |file| && Here(file[..constants], pc, code) && Here(file[constants..], place, data)
    ensures Here(file, pc, code) && Here(file, constants + place, data)
  {
    assert file[pc..pc + |code|] == file[..constants][pc..pc + |code|];
    assert file[constants + place..constants + place + |data|] == file[constants..][place..place + |data|];
  }

  ghost predicate HoldUpTo(env: Env, ins: seq<Instr>, d: Tree, n: nat) {
    n <= |ins| && forall j :: 0 <= j < n ==> InstrHolds(env, ins[j], d)
  }

  lemma HoldStep(env: Env, ins: seq<Instr>, d: Tree, n: nat)
    ensures HoldUpTo(env, ins, d, 0)
    ensures HoldUpTo(env, ins, d, n) && n < |ins| && InstrHolds(env, ins[n], d) ==> HoldUpTo(env, ins, d, n + 1)
    ensures n < |ins| && !InstrHolds(env, ins[n], d) ==> !AllHold(env, ins, d)
    ensures HoldUpTo(env, ins, d, |ins|) ==> AllHold(env, ins, d)
  {
    hide InstrHolds;
  }

  lemma ReadyAt(c: Ctx, ins: seq<Instr>, k: nat)
    requires AllReady(c, ins) && k < |ins|
    ensures InstrReady(c, ins[k])
  {
    hide InstrReady;
  }

  lemma MakeAtInstr(st: VMState, i: Instr, place: nat, tail: bytes, d: Tree)
    requires FileOk(st.file, st.constants) && InstrReady(CtxOf(st), i) && Subject(st, d)
    requires Here(st.file, st.pc, ArgsThen(st.offs, st.at, i, place, tail))
    requires Here(st.file, st.constants + place, DataOf(i))
    ensures AtInstr(st, i, place, tail, d)
  {
    hide InstrReady;
    hide Subject;
    hide Here;
    hide ArgsThen;
    hide DataOf;
    hide FileOk;
  }

  lemma EmittedKws(c: Ctx, i: Instr)
    requires InstrReady(c, i)
    ensures var k := InstrKw(i);
            || (k == KType || IsNumKw(k) || IsIntKw(k) || k == KUniqueItems || k == KPattern || k == KFormat || k == KRequired)
            || (k == KItems || k == KContains || k == KNot || k == KPropertyNames || k == KAllOf || k == KAnyOf || k == KOneOf
                || k == KIf || k == KProperties)
  {
    hide RefReady;
    hide OptReady;
    hide RulesReady;
    hide AddReady;
  }

  predicate IsLocalKw(k: Kw) {
    k == KType || IsNumKw(k) || IsIntKw(k) || k == KUniqueItems || k == KPattern || k == KFormat || k == KRequired
  }

  lemma LocalKws(k: Kw)
    ensures IsLocalKw(k) <==>
            (k == KType || IsNumKw(k) || IsIntKw(k) || k == KUniqueItems || k == KPattern || k == KFormat || k == KRequired)
  {
  }

  /** Calls the handler the table gives for the opcode. */
  method Execute(st: VMState, opcode: byte, ghost i: Instr, ghost place: nat, ghost tail: bytes, ghost d: Tree) returns (ok: bool)
    requires AtInstr(st, i, place, tail, d) && opcode == OpCode(InstrKw(i))
    modifies st`pc
    ensures ok == InstrHolds(st.env, i, d)
    ensures ok ==> Here(st.file, st.pc, tail)
    decreases st.bound, 6
  {
    hide *;
    AtInstrMeans(st, i, place, tail, d);
    InstrKinds(CtxOf(st), i);
    OpcodesMatch(InstrKw(i));
    EmittedKws(CtxOf(st), i);
    var k := HandlerOf(opcode);
    LocalKws(k);
    if IsLocalKw(k) {
      ok := ExecuteLocal(st, k, i, place, tail, d);
    } else {
      ok := ExecuteNested(st, k, i, place, tail, d);
    }
  }

  lemma OpBytes()
    ensures OP_END == 0 && OP_FAIL == 1
  {
  }

  /** One turn of the fetch loop. */
  method Fetch(st: VMState, ghost ins: seq<Instr>, ghost n: nat, ghost place: nat, ghost last: byte, ghost d: Tree)
    returns (ok: bool, running: bool, ghost next: nat)
    requires n <= |ins| && AllReady(CtxOf(st), ins) && FileOk(st.file, st.constants) && Subject(st, d)
    requires Ahead(CtxOf(st), st.pc, ins[n..], place, last) && (last == OP_FAIL || last == OP_END)
    modifies st`pc
    ensures !ok ==> (n < |ins| && !InstrHolds(st.env, ins[n], d)) || (n == |ins| && last == OP_FAIL)
    ensures ok && running ==> n < |ins| && InstrHolds(st.env, ins[n], d) && Ahead(CtxOf(st), st.pc, ins[n + 1..], next, last)
    ensures ok && !running ==> n == |ins| && last == OP_END
    decreases st.bound, 7
  {
    hide *;
    CtxIs(st);
    OpBytes();
    ghost var c := CtxOf(st);
    ghost var op, rest, after := last, [], [];
    next := place;
    if n < |ins| {
      ReadyAt(c, ins, n);
      InstrKinds(c, ins[n]);
      AheadNext(c, st.pc, ins, n, place, last);
      next := place + |DataOf(ins[n])|;
      op := OpCode(InstrKw(ins[n]));
      after := EncAll(st.offs, st.at, ins[n + 1..], next) + [last];
      rest := ArgsThen(st.offs, st.at, ins[n], place, after);
    } else {
      AheadLast(c, st.pc, ins, place, last);
    }
    var opcode := st.ReadByte(op, rest);
    if opcode == OP_END {
      return true, false, next;
    }
    if opcode == OP_FAIL {
      return false, false, next;
    }
    MakeAtInstr(st, ins[n], place, after, d);
    ok := Execute(st, opcode, ins[n], place, after, d);
    running := true;
    AheadMeans(c, st.pc, ins[n + 1..], next, last);
  }

  /** The fetch loop over one block. */
  method RunBlock(st: VMState, ghost s: Tree, ghost d: Tree, ghost start: nat) returns (ok: bool)
    requires Standing(CtxOf(st), s) && Subject(st, d)
    requires Ahead(CtxOf(st), st.pc, NodeInstrs(st.env, s)[0..], start, if IsFalse(s) then OP_FAIL else OP_END)
    modifies st`pc
    ensures ok == Accepts(st.env, s, d)
    decreases st.bound, 8
  {
    hide *;
    CtxIs(st);
    OpBytes();
    ghost var c := CtxOf(st);
    ghost var ins := NodeInstrs(st.env, s);
    ghost var last := if IsFalse(s) then OP_FAIL else OP_END;
    StandingMeans(c, s);
    ExactMeans(s);
    NodeMeaning(st.env, s, d);
    NodeReady(c, s);
    HoldStep(st.env, ins, d, 0);
    ghost var n: nat := 0;
    ghost var place: nat := start;
    var running := true;
    while running
      invariant n <= |ins| && HoldUpTo(st.env, ins, d, n)
      invariant running ==> Ahead(c, st.pc, ins[n..], place, last)
      invariant !running ==> n == |ins| && last == OP_END
      decreases |ins| - n, running
    {
      var one, more, next := Fetch(st, ins, n, place, last, d);
      HoldStep(st.env, ins, d, n);
      if !one {
        return false;
      }
      running := more;
      if running {
        place, n := next, n + 1;
      }
    }
    HoldStep(st.env, ins, d, n);
    ok := true;
  }

  // ---------------------------------------------------------------- validate_bytecode

  lemma HeaderRead(file: bytes, constants: nat)
    requires FileOk(file, constants)
    ensures |file| >= 16 && GetU32(file, 0) == MAGIC && GetU32(file, 4) == VERSION && 16 + GetU32(file, 8) == constants
  {
    hide U32;
    hide GetU32;
    hide Here;
    var a, b := U32(MAGIC), U32(VERSION);
    var s, e := U32(constants - 16), U32(|file| - constants);
    HereSplit(file, 0, a + b + s, e);
    HereSplit(file, 0, a + b, s);
    HereSplit(file, 0, a, b);
    Bytes.ReadU32(file, 0, MAGIC);
    Bytes.ReadU32(file, 4, VERSION);
    Bytes.ReadU32(file, 8, constants - 16);
  }

  lemma MakeStanding(env: Env, file: bytes, constants: nat, offs: seq<nat>, at: nat, s: Tree, offset: uint32)
    requires FileOk(file, constants) && Reached(env, file, constants, offs, at, s, offset) && offset < |file|
    ensures Standing(Ctx(env, file, constants, offs, at, Len(s)), s)
    ensures at < |offs| && offset == offs[at]
  {
    hide *;
    NoOffsetIs();
    FileSmall(file, constants);
    ReachedCases(env, file, constants, offs, at, s, offset);
    StandingIs(Ctx(env, file, constants, offs, at, Len(s)), s);
  }

  lemma StandingIs(c: Ctx, s: Tree)
    requires FileOk(c.file, c.constants) && c.constants <= |c.file| && Exact(s) && c.bound == Len(s)
    requires Placed(c.env, c.file[..c.constants], c.file[c.constants..], c.offs, c.at, s)
    ensures Standing(c, s)
  {
    hide Header;
    hide Here;
    hide Placed;
    hide Exact;
    hide Len;
  }

  /** An offset outside the file belongs to no schema. */
  lemma BeyondFile(env: Env, file: bytes, constants: nat, offs: seq<nat>, at: nat, s: Tree, offset: uint32, d: Tree)
    requires FileOk(file, constants) && Reached(env, file, constants, offs, at, s, offset) && offset >= |file|
    ensures Accepts(env, s, d)
  {
    hide *;
    ReachedCases(env, file, constants, offs, at, s, offset);
    FileBounds(file, constants);
    if ValidSub(s) {
      PlacedInside(env, file[..constants], file[constants..], offs, at, s);
    } else {
      InvalidAccepts(env, s, d);
    }
  }

  /** `validate_bytecode`: running the block at `offset` on node `node` accepts exactly what
      the schema the block was compiled from accepts. */
  method ValidateBytecode(env: Env, file: bytes, pool: seq<Node>, offset: uint32, node: nat,
                          ghost constants: nat, ghost offs: seq<nat>, ghost at: nat, ghost s: Tree, ghost d: Tree) returns (ok: bool)
    requires FileOk(file, constants) && Reached(env, file, constants, offs, at, s, offset)
    requires At(pool, node, d) && Sane(d)
    ensures ok == Accepts(env, s, d)
    decreases Len(s), 9
  {
    hide *;
    if offset >= |file| {
      BeyondFile(env, file, constants, offs, at, s, offset, d);
      return true;
    }
    HeaderRead(file, constants);
    if |file| < 16 {
      return false;
    }
    if offset == 16 && (GetU32(file, 0) != MAGIC || GetU32(file, 4) != VERSION) {
      return false;
    }
    var codeSize := GetU32(file, 8);
    MakeStanding(env, file, constants, offs, at, s, offset);
    ghost var c := Ctx(env, file, constants, offs, at, Len(s));
    FileBounds(file, constants);
    ghost var start := AheadStart(c, s, file[..constants], file[constants..]);
    var st := new VMState(env, file, pool, node, 16 + codeSize as int, offset, offs, at, Len(s));
    CtxIs(st);
    MakeSubject(st, d);
    ok := RunBlock(st, s, d, start);
  }

  lemma MakeSubject(st: VMState, d: Tree)
    requires At(st.pool, st.node, d) && Sane(d)
    ensures Subject(st, d)
  {
    hide At;
    hide Sane;
  }
}
