/** The emitting half of pass 2: one instruction after another into the buffer
    (src/validation/schema.c). */
module Emission {
  import opened Bytes
  import opened Ast
  import opened Unescape
  import opened Keywords
  import opened Semantics
  import opened Layout
  import opened Code
  import opened Sizes
  import opened Agreement
  import opened PoolSizes
  import opened Walk
  import opened Cover
  import opened Writer
  import opened Pass2

  /** From code `c0` and pool `p0`, instructions `ins` have been written. */
  ghost predicate Emitted(c0: bytes, p0: bytes, c1: bytes, p1: bytes, offs: seq<nat>, at: nat, ins: seq<Instr>) {
    && c1 == c0 + EncAll(offs, at, ins, |p0|)
    && p1 == p0 + DataAll(ins)
  }

  lemma EmittedNone(c: bytes, p: bytes, offs: seq<nat>, at: nat)
    ensures Emitted(c, p, c, p, offs, at, [])
  {
    EmptySize(offs, at, |p|);
    assert c + [] == c && p + [] == p;
  }

  lemma EmittedThen(c0: bytes, p0: bytes, c1: bytes, p1: bytes, c2: bytes, p2: bytes,
                    offs: seq<nat>, at: nat, ins: seq<Instr>, jns: seq<Instr>)
    requires Emitted(c0, p0, c1, p1, offs, at, ins) && Emitted(c1, p1, c2, p2, offs, at, jns)
    ensures Emitted(c0, p0, c2, p2, offs, at, ins + jns)
  {
    hide EncAll;
    hide DataAll;
    EncAllAppend(offs, at, ins, jns, |p0|);
    Regroup(c0, EncAll(offs, at, ins, |p0|), EncAll(offs, at, jns, |p1|));
    Regroup(p0, DataAll(ins), DataAll(jns));
  }

  /** An opcode and an operand that together encode one instruction without strings. */
  lemma EmittedPlain(c: bytes, p: bytes, offs: seq<nat>, at: nat, i: Instr, op: bytes, arg: bytes)
    requires Enc(offs, at, i, |p|) == op + arg && DataOf(i) == []
    ensures Emitted(c, p, c + op + arg, p, offs, at, [i])
  {
    hide Enc;
    hide DataOf;
    hide EncAll;
    hide DataAll;
    EncOne(offs, at, i, |p|);
    Regroup(c, op, arg);
    assert p + [] == p;
  }

  lemma EmittedOne(c: bytes, p: bytes, offs: seq<nat>, at: nat, i: Instr, code: bytes, data: bytes)
    requires Enc(offs, at, i, |p|) == code && DataOf(i) == data
    ensures Emitted(c, p, c + code, p + data, offs, at, [i])
  {
    hide Enc;
    hide DataOf;
    hide EncAll;
    hide DataAll;
    EncOne(offs, at, i, |p|);
  }

  lemma SimpleForms(offs: seq<nat>, at: nat, d: nat, k: Kw, types: set<SchemaType>, bits: Bits, n: int32, ref: Ref)
    ensures Enc(offs, at, TypeI(types), d) == [OpCode(KType)] + U32(MaskOf(types)) && DataOf(TypeI(types)) == []
    ensures Enc(offs, at, NumI(k, bits), d) == [OpCode(k)] + U64(bits) && DataOf(NumI(k, bits)) == []
    ensures Enc(offs, at, CountI(k, n), d) == [OpCode(k)] + U32(FromI32(n)) && DataOf(CountI(k, n)) == []
    ensures Enc(offs, at, SubI(k, ref), d) == [OpCode(k)] + U32(Offset(offs, at, ref)) && DataOf(SubI(k, ref)) == []
    ensures Enc(offs, at, UniqueI, d) == [OpCode(KUniqueItems)] + [] && DataOf(UniqueI) == []
  {
    hide U32;
    hide U64;
    hide MaskOf;
    hide OpCode;
    hide Offset;
    hide FromI32;
    assert [OpCode(KUniqueItems)] + [] == [OpCode(KUniqueItems)];
  }

  method EmitTypes(w: CodeWriter, types: set<SchemaType>, ghost offs: seq<nat>, ghost at: nat)
    requires w.Valid() && w.code + 5 <= w.poolStart
    modifies w, w.buf
    ensures w.Valid()
    ensures Emitted(old(w.Written()), old(w.Pool()), w.Written(), w.Pool(), offs, at, [TypeI(types)])
  {
    hide *;
    w.EmitByte(OpCode(KType));
    w.EmitU32(MaskOf(types));
    SimpleForms(offs, at, |w.Pool()|, KType, types, 0, 0, Ref(0, Leaf(false, BraceToken)));
    EmittedPlain(old(w.Written()), w.Pool(), offs, at, TypeI(types), [OpCode(KType)], U32(MaskOf(types)));
  }

  method EmitNumber(w: CodeWriter, k: Kw, bits: Bits, ghost offs: seq<nat>, ghost at: nat)
    requires w.Valid() && w.code + 9 <= w.poolStart
    modifies w, w.buf
    ensures w.Valid()
    ensures Emitted(old(w.Written()), old(w.Pool()), w.Written(), w.Pool(), offs, at, [NumI(k, bits)])
  {
    hide *;
    w.EmitByte(OpCode(k));
    w.EmitU64(bits);
    SimpleForms(offs, at, |w.Pool()|, k, {}, bits, 0, Ref(0, Leaf(false, BraceToken)));
    EmittedPlain(old(w.Written()), w.Pool(), offs, at, NumI(k, bits), [OpCode(k)], U64(bits));
  }

  method EmitCount(w: CodeWriter, k: Kw, n: int32, ghost offs: seq<nat>, ghost at: nat)
    requires w.Valid() && w.code + 5 <= w.poolStart
    modifies w, w.buf
    ensures w.Valid()
    ensures Emitted(old(w.Written()), old(w.Pool()), w.Written(), w.Pool(), offs, at, [CountI(k, n)])
  {
    hide *;
    w.EmitByte(OpCode(k));
    w.EmitU32(FromI32(n));
    SimpleForms(offs, at, |w.Pool()|, k, {}, 0, n, Ref(0, Leaf(false, BraceToken)));
    EmittedPlain(old(w.Written()), w.Pool(), offs, at, CountI(k, n), [OpCode(k)], U32(FromI32(n)));
  }

  method EmitUnique(w: CodeWriter, ghost offs: seq<nat>, ghost at: nat)
    requires w.Valid() && w.code + 1 <= w.poolStart
    modifies w, w.buf
    ensures w.Valid()
    ensures Emitted(old(w.Written()), old(w.Pool()), w.Written(), w.Pool(), offs, at, [UniqueI])
  {
    hide *;
    w.EmitByte(OpCode(KUniqueItems));
    SimpleForms(offs, at, |w.Pool()|, KUniqueItems, {}, 0, 0, Ref(0, Leaf(false, BraceToken)));
    EmittedPlain(old(w.Written()), w.Pool(), offs, at, UniqueI, [OpCode(KUniqueItems)], []);
    assert w.Written() + [] == w.Written();
  }

  lemma OffsetIs(offs: seq<nat>, at: nat, ref: Ref)
    requires at + ref.rel < |offs|
    ensures Offset(offs, at, ref) == Wrap32(offs[at + ref.rel])
  {
    hide Wrap32;
  }

  method EmitSub(w: CodeWriter, k: Kw, offs: seq<nat>, node: nat, ghost at: nat, ghost ref: Ref)
    requires w.Valid() && w.code + 5 <= w.poolStart && node == at + ref.rel && node < |offs|
    modifies w, w.buf
    ensures w.Valid()
    ensures Emitted(old(w.Written()), old(w.Pool()), w.Written(), w.Pool(), offs, at, [SubI(k, ref)])
  {
    hide *;
    OffsetIs(offs, at, ref);
    w.EmitByte(OpCode(k));
    w.EmitU32(Wrap32(offs[node]));
    SimpleForms(offs, at, |w.Pool()|, k, {}, 0, 0, ref);
    EmittedPlain(old(w.Written()), w.Pool(), offs, at, SubI(k, ref), [OpCode(k)], U32(Offset(offs, at, ref)));
  }

  lemma StrForm(offs: seq<nat>, at: nat, d: nat, k: Kw, s: bytes)
    ensures Enc(offs, at, StrI(k, s), d) == [OpCode(k)] + EncStr(s, d) && DataOf(StrI(k, s)) == s
  {
    hide EncStr;
    hide OpCode;
  }

  method EmitString(w: CodeWriter, k: Kw, tok: Token, ghost offs: seq<nat>, ghost at: nat)
    requires w.Valid() && w.code + 9 <= w.poolStart && WfToken(tok) && w.data + RawLen(tok) <= w.buf.Length
    modifies w, w.buf
    ensures w.Valid()
    ensures Emitted(old(w.Written()), old(w.Pool()), w.Written(), w.Pool(), offs, at, [StrI(k, Text(tok))])
  {
    hide *;
    ghost var c0, p0 := w.Written(), w.Pool();
    w.EmitByte(OpCode(k));
    w.EmitStringRef(tok);
    StrForm(offs, at, |p0|, k, Text(tok));
    Regroup(c0, [OpCode(k)], EncStr(Text(tok), |p0|));
    EmittedOne(c0, p0, offs, at, StrI(k, Text(tok)), [OpCode(k)] + EncStr(Text(tok), |p0|), Text(tok));
  }

  // ---------------------------------------------------------------- lists of offsets

  lemma RefsStep(offs: seq<nat>, at: nat, refs: seq<Ref>, i: nat, c: bytes, all: bytes)
    requires i < |refs| && c + EncRefs(offs, at, refs[i..]) == all
    ensures c + U32(Offset(offs, at, refs[i])) + EncRefs(offs, at, refs[i + 1..]) == all
  {
    hide U32;
    hide Offset;
    assert refs[i..][0] == refs[i] && refs[i..][1..] == refs[i + 1..];
    Regroup(c, U32(Offset(offs, at, refs[i])), EncRefs(offs, at, refs[i + 1..]));
  }

  lemma RefsEnds(offs: seq<nat>, at: nat, refs: seq<Ref>, c: bytes)
    ensures refs[0..] == refs && c + EncRefs(offs, at, refs[|refs|..]) == c
  {
    assert c + [] == c;
  }

  lemma EntryRefNode(at: nat, rel: nat, items: seq<Tree>, i: nat)
    requires i < |items|
    ensures EntryRefs(rel + 1, items)[i] == Ref(rel + ItemPos(items, i), items[i])
  {
    hide EntryPos;
    hide ItemPos;
    hide EntryRefs;
    EntryRefAt(rel + 1, items, i);
    EntryPosIs(rel + 1, items, i);
  }

  /** The offsets of all entries of an array, schemas or not. */
  method EmitEntries(w: CodeWriter, pool: seq<Node>, offs: seq<nat>, node: nat, ghost at: nat, ghost rel: nat, ghost v: Tree)
    requires At(pool, node, v) && v.Arr? && |offs| == |pool| && node == at + rel
    requires w.Valid() && w.code + 4 * |v.items| <= w.poolStart
    modifies w, w.buf
    ensures w.Valid() && w.Pool() == old(w.Pool())
    ensures w.Written() == old(w.Written()) + EncRefs(offs, at, EntryRefs(rel + 1, v.items))
  {
    hide *;
    AtBound(pool, node, v);
    FirstItem(pool, node, v);
    var sub := pool[node].firstChild;
    ItemCursorEnd(pool, node, v.items, 0, sub);
    ghost var i := 0;
    ghost var refs := EntryRefs(rel + 1, v.items);
    ghost var all := w.Written() + EncRefs(offs, at, refs);
    RefsEnds(offs, at, refs, w.Written());
    while sub != -1
      invariant i <= |v.items| && ItemCursor(pool, node, v.items, i, sub)
      invariant sub == -1 <==> i == |v.items|
      invariant w.Valid() && w.code + 4 * (|v.items| - i) <= w.poolStart
      invariant w.Pool() == old(w.Pool())
      invariant w.Written() + EncRefs(offs, at, refs[i..]) == all
      decreases |v.items| - i
    {
      ItemStep(pool, node, v.items, i, sub);
      EntryRefNode(at, rel, v.items, i);
      OffsetIs(offs, at, refs[i]);
      RefsStep(offs, at, refs, i, w.Written(), all);
      w.EmitU32(Wrap32(offs[sub]));
      sub := pool[sub].nextSibling;
      i := i + 1;
      ItemCursorEnd(pool, node, v.items, i, sub);
    }
    RefsEnds(offs, at, refs, w.Written());
  }

  lemma ManyForm(offs: seq<nat>, at: nat, d: nat, k: Kw, count: nat, refs: seq<Ref>)
    ensures Enc(offs, at, ManyI(k, count, refs), d) == [OpCode(k)] + U32(Wrap32(count)) + EncRefs(offs, at, refs)
    ensures DataOf(ManyI(k, count, refs)) == []
  {
    hide EncRefs;
    hide U32;
    hide OpCode;
    hide Wrap32;
  }

  method EmitMany(w: CodeWriter, pool: seq<Node>, offs: seq<nat>, k: Kw, node: nat, count: nat,
                  ghost at: nat, ghost rel: nat, ghost v: Tree)
    requires At(pool, node, v) && v.Arr? && |offs| == |pool| && node == at + rel
    requires w.Valid() && w.code + 5 + 4 * |v.items| <= w.poolStart
    modifies w, w.buf
    ensures w.Valid()
    ensures Emitted(old(w.Written()), old(w.Pool()), w.Written(), w.Pool(), offs, at, [ManyI(k, count, EntryRefs(rel + 1, v.items))])
  {
    hide *;
    ghost var c0 := w.Written();
    ghost var refs := EntryRefs(rel + 1, v.items);
    w.EmitByte(OpCode(k));
    w.EmitU32(Wrap32(count));
    EmitEntries(w, pool, offs, node, at, rel, v);
    ManyForm(offs, at, |w.Pool()|, k, count, refs);
    Regroup(c0, [OpCode(k)], U32(Wrap32(count)));
    EmittedPlain(c0, w.Pool(), offs, at, ManyI(k, count, refs), [OpCode(k)] + U32(Wrap32(count)), EncRefs(offs, at, refs));
  }

  lemma IfForm(offs: seq<nat>, at: nat, d: nat, a: uint32, b: uint32, c: uint32, cond: Ref, thn: Option<Ref>, els: Option<Ref>)
    requires a == Offset(offs, at, cond) && b == OptOffset(offs, at, thn) && c == OptOffset(offs, at, els)
    ensures Enc(offs, at, IfI(cond, thn, els), d) == [OpCode(KIf)] + U32(a) + U32(b) + U32(c)
    ensures DataOf(IfI(cond, thn, els)) == []
  {
    hide U32;
    hide OpCode;
    hide Offset;
    hide OptOffset;
  }

  /** The offset of a branch, or -1 when there is none. */
  method BranchOffset(offs: seq<nat>, h: Held, ghost at: nat, ghost s: Slot) returns (o: uint32)
    requires h == HeldOf(at, s) && (s.Sub? ==> at + s.ref.rel < |offs|)
    ensures o == OptOffset(offs, at, RefIn(s))
  {
    hide Wrap32;
    if h.SubH? {
      o := Wrap32(offs[h.node]);
    } else {
      o := NO_OFFSET;
    }
  }

  method EmitIf(w: CodeWriter, offs: seq<nat>, node: nat, thn: Held, els: Held,
                ghost at: nat, ghost cond: Ref, ghost ts: Slot, ghost es: Slot)
    requires w.Valid() && w.code + 13 <= w.poolStart && node == at + cond.rel && node < |offs|
    requires thn == HeldOf(at, ts) && (ts.Sub? ==> at + ts.ref.rel < |offs|)
    requires els == HeldOf(at, es) && (es.Sub? ==> at + es.ref.rel < |offs|)
    modifies w, w.buf
    ensures w.Valid()
    ensures Emitted(old(w.Written()), old(w.Pool()), w.Written(), w.Pool(), offs, at, [IfI(cond, RefIn(ts), RefIn(es))])
  {
    hide *;
    ghost var c0 := w.Written();
    OffsetIs(offs, at, cond);
    var a := Wrap32(offs[node]);
    w.EmitByte(OpCode(KIf));
    w.EmitU32(a);
    var b := BranchOffset(offs, thn, at, ts);
    w.EmitU32(b);
    var c := BranchOffset(offs, els, at, es);
    w.EmitU32(c);
    IfForm(offs, at, |w.Pool()|, a, b, c, cond, RefIn(ts), RefIn(es));
    Regroup(c0, [OpCode(KIf)], U32(a));
    Regroup(c0, [OpCode(KIf)] + U32(a), U32(b));
    EmittedPlain(c0, w.Pool(), offs, at, IfI(cond, RefIn(ts), RefIn(es)), [OpCode(KIf)] + U32(a) + U32(b), U32(c));
  }

  // ---------------------------------------------------------------- lists of names

  /** Writing names from `i` on completes the whole list. */
  ghost predicate NamesLeft(c: bytes, p: bytes, names: seq<bytes>, i: nat, call: bytes, pall: bytes) {
    && i <= |names|
    && c + EncNames(names[i..], |p|) == call
    && p + NamesData(names[i..]) == pall
  }

  lemma NamesStep(c: bytes, p: bytes, names: seq<bytes>, i: nat, call: bytes, pall: bytes, s: bytes)
    requires NamesLeft(c, p, names, i, call, pall) && i < |names| && s == names[i]
    ensures NamesLeft(c + EncStr(s, |p|), p + s, names, i + 1, call, pall)
  {
    hide EncStr;
    var rest := names[i + 1..];
    assert names[i..] == [s] + rest;
    NamesCons(s, rest, |p|);
    Regroup(c, EncStr(s, |p|), EncNames(rest, |p| + |s|));
    Regroup(p, s, NamesData(rest));
  }

  lemma NamesCons(s: bytes, rest: seq<bytes>, d: nat)
    ensures EncNames([s] + rest, d) == EncStr(s, d) + EncNames(rest, d + |s|)
    ensures NamesData([s] + rest) == s + NamesData(rest)
  {
    hide EncStr;
    assert ([s] + rest)[1..] == rest;
  }

  lemma NamesStart(c: bytes, p: bytes, names: seq<bytes>)
    ensures NamesLeft(c, p, names, 0, c + EncNames(names, |p|), p + NamesData(names))
  {
    hide EncStr;
    assert names[0..] == names;
  }

  lemma NamesEnd(c: bytes, p: bytes, names: seq<bytes>, call: bytes, pall: bytes)
    requires NamesLeft(c, p, names, |names|, call, pall)
    ensures c == call && p == pall
  {
    hide EncStr;
    assert names[|names|..] == [];
    assert c + [] == c && p + [] == p;
  }

  lemma {:induction false} NameAt(items: seq<Tree>, i: nat)
    requires i < |items|
    ensures NamesOf(items)[i] == Text(TokenOf(items[i]))
  {
    hide Text;
    hide TokenOf;
    if i > 0 {
      NameAt(items[1..], i - 1);
    }
  }

  lemma ItemsDataFrom(items: seq<Tree>, i: nat)
    requires i < |items|
    ensures ItemsData(items[i..]) == RawLen(TokenOf(items[i])) + ItemsData(items[i + 1..])
  {
    hide RawLen;
    hide TokenOf;
    assert items[i..][0] == items[i] && items[i..][1..] == items[i + 1..];
  }

  lemma AllItems(items: seq<Tree>)
    ensures items[0..] == items
  {
  }

  method EmitNames(w: CodeWriter, pool: seq<Node>, node: nat, ghost v: Tree)
    requires At(pool, node, v) && v.Arr? && WfTree(v)
    requires w.Valid() && w.code + 8 * |v.items| <= w.poolStart && w.data + ItemsData(v.items) <= w.buf.Length
    modifies w, w.buf
    ensures w.Valid()
    ensures w.Written() == old(w.Written()) + EncNames(NamesOf(v.items), |old(w.Pool())|)
    ensures w.Pool() == old(w.Pool()) + NamesData(NamesOf(v.items))
  {
    hide *;
    AtBound(pool, node, v);
    FirstItem(pool, node, v);
    var r := pool[node].firstChild;
    ItemCursorEnd(pool, node, v.items, 0, r);
    ghost var i := 0;
    ghost var names := NamesOf(v.items);
    ghost var call, pall := w.Written() + EncNames(names, |w.Pool()|), w.Pool() + NamesData(names);
    NamesStart(w.Written(), w.Pool(), names);
    AllItems(v.items);
    while r != -1
      invariant i <= |v.items| && ItemCursor(pool, node, v.items, i, r)
      invariant r == -1 <==> i == |v.items|
      invariant w.Valid() && w.code + 8 * (|v.items| - i) <= w.poolStart
      invariant w.data + ItemsData(v.items[i..]) <= w.buf.Length
      invariant NamesLeft(w.Written(), w.Pool(), names, i, call, pall)
      decreases |v.items| - i
    {
      ItemStep(pool, node, v.items, i, r);
      NodeFacts(pool, r, v.items[i]);
      NameAt(v.items, i);
      WfItem(v, i);
      WfRoot(v.items[i]);
      ItemsDataFrom(v.items, i);
      TextLen(pool[r].tok);
      NamesStep(w.Written(), w.Pool(), names, i, call, pall, Text(pool[r].tok));
      w.EmitStringRef(pool[r].tok);
      r := pool[r].nextSibling;
      i := i + 1;
      ItemCursorEnd(pool, node, v.items, i, r);
    }
    NamesEnd(w.Written(), w.Pool(), names, call, pall);
  }

  lemma RequiredForm(offs: seq<nat>, at: nat, d: nat, count: nat, names: seq<bytes>)
    ensures Enc(offs, at, RequiredI(count, names), d) == [OpCode(KRequired)] + U32(Wrap32(count)) + EncNames(names, d)
    ensures DataOf(RequiredI(count, names)) == NamesData(names)
  {
    hide EncNames;
    hide NamesData;
    hide U32;
    hide OpCode;
    hide Wrap32;
  }

  method EmitRequired(w: CodeWriter, pool: seq<Node>, node: nat, count: nat, ghost offs: seq<nat>, ghost at: nat, ghost v: Tree)
    requires At(pool, node, v) && v.Arr? && WfTree(v)
    requires w.Valid() && w.code + 5 + 8 * |v.items| <= w.poolStart && w.data + ItemsData(v.items) <= w.buf.Length
    modifies w, w.buf
    ensures w.Valid()
    ensures Emitted(old(w.Written()), old(w.Pool()), w.Written(), w.Pool(), offs, at, [RequiredI(count, NamesOf(v.items))])
  {
    hide *;
    ghost var c0, p0 := w.Written(), w.Pool();
    ghost var names := NamesOf(v.items);
    w.EmitByte(OpCode(KRequired));
    w.EmitU32(Wrap32(count));
    EmitNames(w, pool, node, v);
    RequiredForm(offs, at, |p0|, count, names);
    Regroup(c0, [OpCode(KRequired)], U32(Wrap32(count)));
    Regroup(c0, [OpCode(KRequired)] + U32(Wrap32(count)), EncNames(names, |p0|));
    EmittedOne(c0, p0, offs, at, RequiredI(count, names), [OpCode(KRequired)] + U32(Wrap32(count)) + EncNames(names, |p0|), NamesData(names));
  }

  // ---------------------------------------------------------------- property rules

  /** Writing rules from `i` on completes the whole list. */
  ghost predicate RulesLeft(c: bytes, p: bytes, offs: seq<nat>, at: nat, rules: seq<Rule>, i: nat, call: bytes, pall: bytes) {
    && i <= |rules|
    && c + EncRules(offs, at, rules[i..], |p|) == call
    && p + RulesData(rules[i..]) == pall
  }

  lemma RulesCons(offs: seq<nat>, at: nat, r: Rule, rest: seq<Rule>, d: nat)
    ensures EncRules(offs, at, [r] + rest, d)
         == EncStr(r.name, d) + U32(Offset(offs, at, r.ref)) + EncRules(offs, at, rest, d + |r.name|)
    ensures RulesData([r] + rest) == r.name + RulesData(rest)
  {
    hide EncStr;
    hide U32;
    hide Offset;
    assert ([r] + rest)[1..] == rest;
  }

  lemma RulesStep(c: bytes, p: bytes, offs: seq<nat>, at: nat, rules: seq<Rule>, i: nat, call: bytes, pall: bytes, r: Rule)
    requires RulesLeft(c, p, offs, at, rules, i, call, pall) && i < |rules| && r == rules[i]
    ensures RulesLeft(c + EncStr(r.name, |p|) + U32(Offset(offs, at, r.ref)), p + r.name, offs, at, rules, i + 1, call, pall)
  {
    hide EncStr;
    hide U32;
    hide Offset;
    hide EncRules;
    hide RulesData;
    var rest := rules[i + 1..];
    assert rules[i..] == [r] + rest;
    RulesCons(offs, at, r, rest, |p|);
    Regroup(c, EncStr(r.name, |p|) + U32(Offset(offs, at, r.ref)), EncRules(offs, at, rest, |p| + |r.name|));
    Regroup(c, EncStr(r.name, |p|), U32(Offset(offs, at, r.ref)));
    Regroup(p, r.name, RulesData(rest));
  }

  lemma RulesStart(c: bytes, p: bytes, offs: seq<nat>, at: nat, rules: seq<Rule>)
    ensures RulesLeft(c, p, offs, at, rules, 0, c + EncRules(offs, at, rules, |p|), p + RulesData(rules))
  {
    hide EncStr;
    assert rules[0..] == rules;
  }

  lemma RulesEnd(c: bytes, p: bytes, offs: seq<nat>, at: nat, rules: seq<Rule>, call: bytes, pall: bytes)
    requires RulesLeft(c, p, offs, at, rules, |rules|, call, pall)
    ensures c == call && p == pall
  {
    hide EncStr;
    assert rules[|rules|..] == [];
    assert c + [] == c && p + [] == p;
  }

  lemma RuleNode(rel: nat, ms: seq<Member>, i: nat)
    requires i < |ms|
    ensures RulesOf(rel + 1, ms)[i] == Rule(Text(ms[i].key), Ref(rel + PosOf(ms, i) + 1, ms[i].val))
  {
    hide Text;
    hide MemberPos;
    hide RulesOf;
    hide PosOf;
    RuleAt(rel + 1, ms, i);
    MemberPosIs(rel + 1, ms, i);
  }

  lemma KeysDataFrom(ms: seq<Member>, i: nat)
    requires i < |ms|
    ensures KeysData(ms[i..]) == RawLen(ms[i].key) + KeysData(ms[i + 1..])
  {
    hide RawLen;
    assert ms[i..][0] == ms[i] && ms[i..][1..] == ms[i + 1..];
  }

  lemma AllMembers(ms: seq<Member>)
    ensures ms[0..] == ms
  {
  }

  /** The name and offset of every member of a `properties` object. */
  method EmitRules(w: CodeWriter, pool: seq<Node>, offs: seq<nat>, node: nat, ghost at: nat, ghost rel: nat, ghost v: Tree)
    requires At(pool, node, v) && v.Obj? && WfTree(v) && |offs| == |pool| && node == at + rel
    requires w.Valid() && w.code + 12 * |v.members| <= w.poolStart && w.data + KeysData(v.members) <= w.buf.Length
    modifies w, w.buf
    ensures w.Valid() && w.code == old(w.code) + 12 * |v.members| && w.data <= old(w.data) + KeysData(v.members)
    ensures w.Written() == old(w.Written()) + EncRules(offs, at, RulesOf(rel + 1, v.members), |old(w.Pool())|)
    ensures w.Pool() == old(w.Pool()) + RulesData(RulesOf(rel + 1, v.members))
  {
    hide *;
    ghost var ms := v.members;
    AtBound(pool, node, v);
    FirstMember(pool, node, v);
    var p := pool[node].firstChild;
    CursorEnd(pool, node, ms, 0, p);
    ghost var i := 0;
    ghost var rules := RulesOf(rel + 1, ms);
    ghost var call, pall := w.Written() + EncRules(offs, at, rules, |w.Pool()|), w.Pool() + RulesData(rules);
    RulesStart(w.Written(), w.Pool(), offs, at, rules);
    AllMembers(ms);
    while p != -1
      invariant i <= |ms| && MemberCursor(pool, node, ms, i, p)
      invariant p == -1 <==> i == |ms|
      invariant w.Valid() && w.code == old(w.code) + 12 * i
      invariant w.data + KeysData(ms[i..]) <= old(w.data) + KeysData(ms)
      invariant RulesLeft(w.Written(), w.Pool(), offs, at, rules, i, call, pall)
      decreases |ms| - i
    {
      MemberStep(pool, node, ms, i, p);
      KeyFacts(pool, p, ms[i]);
      RuleNode(rel, ms, i);
      WfMembers(v, i);
      KeysDataFrom(ms, i);
      TextLen(pool[p].tok);
      OffsetIs(offs, at, rules[i].ref);
      RulesStep(w.Written(), w.Pool(), offs, at, rules, i, call, pall, rules[i]);
      w.EmitStringRef(pool[p].tok);
      w.EmitU32(Wrap32(offs[p + 1]));
      p := pool[p + 1].nextSibling;
      i := i + 1;
      CursorEnd(pool, node, ms, i, p);
    }
    RulesEnd(w.Written(), w.Pool(), offs, at, rules, call, pall);
  }

  lemma RulesInIs(k: Kw, s: Slot)
    requires IsPropsKw(k) && SlotFits(k, s)
    ensures (s.Many? && s.count > 0) ==>
            && s.last.sub.Obj? && RulesIn(s) == RulesOf(s.last.rel + 1, s.last.sub.members)
            && SlotSize(k, s) == 12 * |s.last.sub.members| && SlotData(true, k, s) == KeysText(true, s.last.sub.members)
    ensures !(s.Many? && s.count > 0) ==> RulesIn(s) == []
  {
    hide RulesOf;
    hide KeysText;
    hide ValidSub;
  }

  lemma NoRules(offs: seq<nat>, at: nat, d: nat)
    ensures EncRules(offs, at, [], d) == [] && RulesData([]) == []
  {
  }

  lemma {:induction false} RawKeys(ms: seq<Member>)
    ensures KeysText(true, ms) == KeysData(ms)
  {
    hide RawLen;
    hide Text;
    if ms != [] {
      RawKeys(ms[1..]);
    }
  }

  lemma {:induction false} RawItems(items: seq<Tree>)
    ensures ItemsText(true, items) == ItemsData(items)
  {
    hide RawLen;
    hide Text;
    hide TokenOf;
    if items != [] {
      RawItems(items[1..]);
    }
  }

  lemma HeldMany(at: nat, s: Slot)
    ensures HeldOf(at, s).ManyH? <==> s.Many?
    ensures s.Many? ==> HeldOf(at, s) == ManyH(at + s.last.rel, s.count)
    ensures HeldOf(at, s).SubH? <==> s.Sub?
    ensures s.Sub? ==> HeldOf(at, s) == SubH(at + s.ref.rel)
  {
  }

  lemma SlotOkMeans(pool: seq<Node>, at: nat, s: Slot)
    requires SlotOk(pool, at, s)
    ensures s.Str? ==> WfToken(s.tok)
    ensures s.Sub? ==> At(pool, at + s.ref.rel, s.ref.sub)
    ensures s.Many? ==> At(pool, at + s.last.rel, s.last.sub) && WfTree(s.last.sub)
  {
    hide WfToken;
    hide WfTree;
    hide At;
  }

  /** `prop_count > 0`: the rules of the last `properties` object. */
  method EmitRulesIn(w: CodeWriter, pool: seq<Node>, offs: seq<nat>, h: Held, ghost at: nat, ghost k: Kw, ghost s: Slot)
    requires h == HeldOf(at, s) && SlotOk(pool, at, s) && IsPropsKw(k) && SlotFits(k, s) && |offs| == |pool|
    requires w.Valid() && w.code + SlotSize(k, s) <= w.poolStart && w.data + SlotData(true, k, s) <= w.buf.Length
    modifies w, w.buf
    ensures w.Valid() && w.code <= old(w.code) + SlotSize(k, s) && w.data <= old(w.data) + SlotData(true, k, s)
    ensures w.Written() == old(w.Written()) + EncRules(offs, at, RulesIn(s), |old(w.Pool())|)
    ensures w.Pool() == old(w.Pool()) + RulesData(RulesIn(s))
  {
    hide *;
    HeldMany(at, s);
    RulesInIs(k, s);
    SlotOkMeans(pool, at, s);
    NoRules(offs, at, |w.Pool()|);
    if h.ManyH? && h.count > 0 {
      RawKeys(s.last.sub.members);
      EmitRules(w, pool, offs, h.node, at, s.last.rel, s.last.sub);
    } else {
      assert w.Written() + [] == w.Written() && w.Pool() + [] == w.Pool();
    }
  }

  lemma EncAddIs(offs: seq<nat>, at: nat, s: Slot, n: Node)
    requires s.Sub? ==> NodeFalse(n) == IsFalse(s.ref.sub) && (n.kind == AstObject) == IsObject(s.ref.sub) && NodeTrue(n) == IsTrue(s.ref.sub)
    ensures EncAdd(offs, at, AddRuleOf(s))
         == if !s.Sub? then 0xFFFF_FFFF
            else if NodeFalse(n) then 0xFFFF_FFFE
            else if n.kind == AstObject || NodeTrue(n) then Offset(offs, at, s.ref)
            else 0xFFFF_FFFF
  {
    hide IsFalse;
    hide IsTrue;
    hide IsObject;
    hide NodeFalse;
    hide NodeTrue;
    hide Offset;
  }

  /** The rule for properties no other keyword matches: -1 allows, -2 denies, anything else
      is the offset of a schema. */
  method AddRuleValue(pool: seq<Node>, offs: seq<nat>, h: Held, ghost at: nat, ghost s: Slot) returns (v: uint32)
    requires h == HeldOf(at, s) && SlotOk(pool, at, s) && |offs| == |pool|
    ensures v == EncAdd(offs, at, AddRuleOf(s))
  {
    hide *;
    HeldMany(at, s);
    SlotOkMeans(pool, at, s);
    if h.SubH? {
      AtBound(pool, h.node, s.ref.sub);
      NodeFacts(pool, h.node, s.ref.sub);
      EncAddIs(offs, at, s, pool[h.node]);
      if NodeFalse(pool[h.node]) {
        return 0xFFFF_FFFE;
      } else if pool[h.node].kind == AstObject || NodeTrue(pool[h.node]) {
        OffsetIs(offs, at, s.ref);
        return Wrap32(offs[h.node]);
      }
      return 0xFFFF_FFFF;
    }
    EncAddIs(offs, at, s, Node(BraceToken, -1, AstLeaf, -1, -1, -1));
    return 0xFFFF_FFFF;
  }

  lemma PropsForm(offs: seq<nat>, at: nat, d: nat, np: nat, npp: nat, add: AddRule, props: seq<Rule>, pats: seq<Rule>, head: bytes)
    requires head == [OpCode(KProperties)] + U32(Wrap32(np)) + U32(Wrap32(npp)) + U32(EncAdd(offs, at, add))
    ensures Enc(offs, at, PropsI(np, npp, add, props, pats), d)
         == head + EncRules(offs, at, props, d) + EncRules(offs, at, pats, d + |RulesData(props)|)
    ensures DataOf(PropsI(np, npp, add, props, pats)) == RulesData(props) + RulesData(pats)
  {
    hide EncRules;
    hide RulesData;
    hide U32;
    hide OpCode;
    hide Wrap32;
    hide EncAdd;
  }

  lemma CountsHeld(at: nat, s: Slot)
    ensures HeldCount(HeldOf(at, s)) == CountIn(s)
  {
  }

  lemma PropsInstr(f: Fields)
    ensures InstrOf(f, KProperties)
         == if HasProps(f) then
              [PropsI(CountIn(Get(f, KProperties)), CountIn(Get(f, KPatternProperties)), AddRuleOf(Get(f, KAdditionalProperties)),
                      RulesIn(Get(f, KProperties)), RulesIn(Get(f, KPatternProperties)))]
            else []
    ensures HasProps(f) <==>
            (CountIn(Get(f, KProperties)) > 0 || CountIn(Get(f, KPatternProperties)) > 0
             || Get(f, KAdditionalProperties).Sub?)
  {
    hide CountIn;
    hide AddRuleOf;
    hide RulesIn;
    hide Get;
  }

  /** The opcode of the property keywords and its three leading operands. */
  method EmitPropsHead(w: CodeWriter, np: nat, npp: nat, add: uint32)
    requires w.Valid() && w.code + 13 <= w.poolStart
    modifies w, w.buf
    ensures w.Valid() && w.Pool() == old(w.Pool()) && w.code == old(w.code) + 13 && w.data == old(w.data)
    ensures w.Written() == old(w.Written()) + ([OpCode(KProperties)] + U32(Wrap32(np)) + U32(Wrap32(npp)) + U32(add))
  {
    hide *;
    ghost var c0 := w.Written();
    w.EmitByte(OpCode(KProperties));
    w.EmitU32(Wrap32(np));
    w.EmitU32(Wrap32(npp));
    w.EmitU32(add);
    Regroup(c0, [OpCode(KProperties)], U32(Wrap32(np)));
    Regroup(c0, [OpCode(KProperties)] + U32(Wrap32(np)), U32(Wrap32(npp)));
    Regroup(c0, [OpCode(KProperties)] + U32(Wrap32(np)) + U32(Wrap32(npp)), U32(add));
  }

  method EmitProps(w: CodeWriter, pool: seq<Node>, offs: seq<nat>, props: Held, pats: Held, add: Held,
                   ghost at: nat, ghost f: Fields, ghost ps: Slot, ghost qs: Slot, ghost s: Slot)
    requires ps == Get(f, KProperties) && qs == Get(f, KPatternProperties) && s == Get(f, KAdditionalProperties)
    requires props == HeldOf(at, ps) && pats == HeldOf(at, qs) && add == HeldOf(at, s)
    requires SlotOk(pool, at, ps) && SlotOk(pool, at, qs) && SlotOk(pool, at, s) && |offs| == |pool|
    requires SlotFits(KProperties, ps) && SlotFits(KPatternProperties, qs)
    requires w.Valid()
    requires w.code + (if HasProps(f) then 13 else 0) + SlotSize(KProperties, ps) + SlotSize(KPatternProperties, qs) <= w.poolStart
    requires w.data + SlotData(true, KProperties, ps) + SlotData(true, KPatternProperties, qs) <= w.buf.Length
    modifies w, w.buf
    ensures w.Valid()
    ensures Emitted(old(w.Written()), old(w.Pool()), w.Written(), w.Pool(), offs, at, InstrOf(f, KProperties))
  {
    hide *;
    ghost var c0, p0 := w.Written(), w.Pool();
    CountsHeld(at, ps);
    CountsHeld(at, qs);
    HeldMany(at, s);
    PropsInstr(f);
    PropsNames();
    if HeldCount(props) > 0 || HeldCount(pats) > 0 || add.SubH? {
      var rule := AddRuleValue(pool, offs, add, at, s);
      EmitPropsHead(w, HeldCount(props), HeldCount(pats), rule);
      ghost var head := [OpCode(KProperties)] + U32(Wrap32(HeldCount(props))) + U32(Wrap32(HeldCount(pats))) + U32(rule);
      EmitRulesIn(w, pool, offs, props, at, KProperties, ps);
      EmitRulesIn(w, pool, offs, pats, at, KPatternProperties, qs);
      PropsJoined(c0, p0, w.Written(), w.Pool(), offs, at, CountIn(ps), CountIn(qs), AddRuleOf(s), RulesIn(ps), RulesIn(qs), head);
    } else {
      EmittedNone(c0, p0, offs, at);
    }
  }

  lemma PropsNames()
    ensures IsPropsKw(KProperties) && IsPropsKw(KPatternProperties)
  {
  }

  lemma PropsJoined(c0: bytes, p0: bytes, c1: bytes, p1: bytes, offs: seq<nat>, at: nat,
                    np: nat, npp: nat, add: AddRule, props: seq<Rule>, pats: seq<Rule>, head: bytes)
    requires head == [OpCode(KProperties)] + U32(Wrap32(np)) + U32(Wrap32(npp)) + U32(EncAdd(offs, at, add))
    requires c1 == c0 + head + EncRules(offs, at, props, |p0|) + EncRules(offs, at, pats, |p0 + RulesData(props)|)
    requires p1 == p0 + RulesData(props) + RulesData(pats)
    ensures Emitted(c0, p0, c1, p1, offs, at, [PropsI(np, npp, add, props, pats)])
  {
    hide *;
    var i := PropsI(np, npp, add, props, pats);
    var e1, e2 := EncRules(offs, at, props, |p0|), EncRules(offs, at, pats, |p0| + |RulesData(props)|);
    PropsForm(offs, at, |p0|, np, npp, add, props, pats, head);
    Regroup(c0, head, e1);
    Regroup(c0, head + e1, e2);
    Regroup(p0, RulesData(props), RulesData(pats));
    EmittedOne(c0, p0, offs, at, i, head + e1 + e2, RulesData(props) + RulesData(pats));
  }

  // ---------------------------------------------------------------- one keyword

  lemma InstrCases(f: Fields, k: Kw, s: Slot)
    requires s == Get(f, k) && k != KIf && k != KProperties
    ensures s.Empty? ==> InstrOf(f, k) == []
    ensures s.Types? ==> InstrOf(f, k) == [TypeI(s.types)]
    ensures s.Num? ==> InstrOf(f, k) == [NumI(k, s.bits)]
    ensures s.Int? ==> InstrOf(f, k) == [CountI(k, s.n)]
    ensures s.Flag? ==> InstrOf(f, k) == if s.on then [UniqueI] else []
    ensures s.Str? ==> InstrOf(f, k) == [StrI(k, Text(s.tok))]
    ensures s.Sub? ==> InstrOf(f, k) == [SubI(k, s.ref)]
    ensures s.Many? && s.last.sub.Arr? ==>
              InstrOf(f, k)
              == if k != KRequired then [ManyI(k, s.count, EntryRefs(s.last.rel + 1, s.last.sub.items))]
                 else if s.count > 0 then [RequiredI(s.count, NamesOf(s.last.sub.items))]
                 else []
  {
    hide Get;
    hide Text;
    hide EntryRefs;
    hide NamesOf;
  }

  lemma SlotNeeds(k: Kw, s: Slot)
    requires SlotFits(k, s) && Rank(k) < 24 && k != KIf
    ensures s.Types? ==> SlotSize(k, s) == 5
    ensures s.Num? ==> SlotSize(k, s) == 9
    ensures s.Int? ==> SlotSize(k, s) == 5
    ensures s.Flag? ==> SlotSize(k, s) == if s.on then 1 else 0
    ensures s.Str? ==> SlotSize(k, s) == 9 && SlotData(true, k, s) == RawLen(s.tok)
    ensures s.Sub? ==> SlotSize(k, s) == 5
    ensures s.Many? ==>
              && s.last.sub.Arr?
              && (k != KRequired ==> SlotSize(k, s) == 5 + 4 * |s.last.sub.items|)
              && (k == KRequired && s.count > 0 ==>
                    SlotSize(k, s) == 5 + 8 * |s.last.sub.items| && SlotData(true, k, s) == ItemsText(true, s.last.sub.items))
  {
    hide RawLen;
    hide Text;
    hide ItemsText;
    hide KeysText;
    hide IsTrue;
    hide IsObject;
  }

  lemma HeldCases(at: nat, s: Slot)
    ensures match HeldOf(at, s)
            case NoneH => s == Empty
            case TypesH(types) => s == Types(types)
            case NumH(bits) => s == Num(bits)
            case IntH(n) => s == Int(n)
            case FlagH(on) => s == Flag(on)
            case StrH(tok) => s == Str(tok)
            case SubH(node) => s.Sub? && node == at + s.ref.rel
            case ManyH(node, count) => s.Many? && node == at + s.last.rel && count == s.count
  {
  }

  /** Emits what was gathered for one keyword other than `if` and the property keywords. */
  method EmitHeld(w: CodeWriter, pool: seq<Node>, offs: seq<nat>, k: Kw, h: Held,
                  ghost at: nat, ghost f: Fields, ghost s: Slot)
    requires s == Get(f, k) && h == HeldOf(at, s) && SlotOk(pool, at, s) && SlotFits(k, s)
    requires Rank(k) < 24 && k != KIf && k != KProperties && |offs| == |pool|
    requires w.Valid() && w.code + SlotSize(k, s) <= w.poolStart && w.data + SlotData(true, k, s) <= w.buf.Length
    modifies w, w.buf
    ensures w.Valid()
    ensures Emitted(old(w.Written()), old(w.Pool()), w.Written(), w.Pool(), offs, at, InstrOf(f, k))
  {
    hide *;
    HeldCases(at, s);
    InstrCases(f, k, s);
    SlotNeeds(k, s);
    SlotOkMeans(pool, at, s);
    EmittedNone(w.Written(), w.Pool(), offs, at);
    match h {
      case NoneH =>
      case TypesH(types) => EmitTypes(w, types, offs, at);
      case NumH(bits) => EmitNumber(w, k, bits, offs, at);
      case IntH(n) => EmitCount(w, k, n, offs, at);
      case FlagH(on) =>
        if on {
          EmitUnique(w, offs, at);
        }
      case StrH(tok) => EmitString(w, k, tok, offs, at);
      case SubH(node) =>
        AtBound(pool, node, s.ref.sub);
        EmitSub(w, k, offs, node, at, s.ref);
      case ManyH(node, count) =>
        if k != KRequired {
          EmitMany(w, pool, offs, k, node, count, at, s.last.rel, s.last.sub);
        } else if count > 0 {
          RawItems(s.last.sub.items);
          EmitRequired(w, pool, node, count, offs, at, s.last.sub);
        }
    }
  }

  lemma IfCases(f: Fields, s: Slot)
    requires s == Get(f, KIf) && SlotFits(KIf, s)
    ensures InstrOf(f, KIf) == if s.Sub? then [IfI(s.ref, RefIn(Get(f, KThen)), RefIn(Get(f, KElse)))] else []
    ensures s.Sub? ==> SlotSize(KIf, s) == 13
  {
    hide Get;
    hide RefIn;
    hide ValidSub;
    hide IsTrue;
  }

  lemma SubBound(pool: seq<Node>, at: nat, s: Slot)
    requires SlotOk(pool, at, s)
    ensures s.Sub? ==> at + s.ref.rel < |pool|
  {
    hide *;
    SlotOkMeans(pool, at, s);
    if s.Sub? {
      AtBound(pool, at + s.ref.rel, s.ref.sub);
    }
  }

  method EmitIfHeld(w: CodeWriter, pool: seq<Node>, offs: seq<nat>, cond: Held, thn: Held, els: Held,
                    ghost at: nat, ghost f: Fields, ghost s: Slot)
    requires s == Get(f, KIf) && cond == HeldOf(at, s) && SlotOk(pool, at, s) && SlotFits(KIf, s)
    requires thn == HeldOf(at, Get(f, KThen)) && SlotOk(pool, at, Get(f, KThen))
    requires els == HeldOf(at, Get(f, KElse)) && SlotOk(pool, at, Get(f, KElse))
    requires |offs| == |pool| && w.Valid() && w.code + SlotSize(KIf, s) <= w.poolStart
    modifies w, w.buf
    ensures w.Valid()
    ensures Emitted(old(w.Written()), old(w.Pool()), w.Written(), w.Pool(), offs, at, InstrOf(f, KIf))
  {
    hide *;
    HeldMany(at, s);
    IfCases(f, s);
    SubBound(pool, at, s);
    SubBound(pool, at, Get(f, KThen));
    SubBound(pool, at, Get(f, KElse));
    EmittedNone(w.Written(), w.Pool(), offs, at);
    if cond.SubH? {
      EmitIf(w, offs, cond.node, thn, els, at, s.ref, Get(f, KThen), Get(f, KElse));
    }
  }
}
