/** What one schema node compiles to: the fields gathered from its members, the
    instructions they give, and their bytes (src/validation/schema.c, pass 2). */
module Code {
  import opened Bytes
  import opened Ast
  import opened Keywords
  import opened Semantics
  import opened Layout

  // ---------------------------------------------------------------- gathered fields

  /** What has been seen for one keyword. `Many` keeps the last array or object and the
      number of entries counted over all of them. */
  datatype Slot =
    | Empty
    | Types(types: set<SchemaType>)
    | Num(bits: Bits)
    | Int(n: int32)
    | Flag(on: bool)
    | Str(tok: Token)
    | Sub(ref: Ref)
    | Many(last: Ref, count: nat)

  type Fields = map<Kw, Slot>

  function Get(f: Fields, k: Kw): Slot {
    if k in f then f[k] else Empty
  }

  function CountIn(s: Slot): nat {
    if s.Many? then s.count else 0
  }

  function TypesIn(s: Slot): set<SchemaType> {
    if s.Types? then s.types else {}
  }

  function Update(env: Env, prev: Slot, k: Kw, rel: nat, v: Tree): Slot {
    if IsNumKw(k) then Num(ToDouble(env, TokenOf(v)))
    else if IsIntKw(k) then Int(ToInt32(env, TokenOf(v)))
    else if IsStrKw(k) then Str(TokenOf(v))
    else if k == KType then Types(if IsStr(v) then TypeSet(v) else TypesIn(prev) + TypeSet(v))
    else if k == KUniqueItems then Flag(IsTrue(v))
    else if IsSubKw(k) || IsBranchKw(k) then (if ValidSub(v) then Sub(Ref(rel, v)) else prev)
    else if IsManyKw(k) || k == KRequired then
      (if IsArray(v) then Many(Ref(rel, v), CountIn(prev) + |v.items|) else prev)
    else if IsPropsKw(k) then
      (if IsObject(v) then Many(Ref(rel, v), CountIn(prev) + |v.members|) else prev)
    else if k == KAdditionalProperties then Sub(Ref(rel, v))
    else prev
  }

  function Step(env: Env, f: Fields, rel: nat, m: Member): Fields {
    f[KwOf(m) := Update(env, Get(f, KwOf(m)), KwOf(m), rel, m.val)]
  }

  /** Where member `i`'s key lies, relative to the object node. */
  function PosOf(ms: seq<Member>, i: nat): (p: nat)
    requires i <= |ms|
  {
    if i == 0 then 1 else PosOf(ms, i - 1) + 1 + Len(ms[i - 1].val)
  }

  /** The fields after the first `i` members. */
  function FieldsUpTo(env: Env, ms: seq<Member>, i: nat): Fields
    requires i <= |ms|
  {
    if i == 0 then map[]
    else Step(env, FieldsUpTo(env, ms, i - 1), PosOf(ms, i - 1) + 1, ms[i - 1])
  }

  function Collected(env: Env, t: Tree): Fields
    requires t.Obj?
  {
    FieldsUpTo(env, t.members, |t.members|)
  }

  // ---------------------------------------------------------------- instructions

  datatype Rule = Rule(name: bytes, ref: Ref)

  datatype AddRule = Allowed | Denied | Checked(ref: Ref)

  datatype Instr =
    | TypeI(types: set<SchemaType>)
    | NumI(k: Kw, bits: Bits)
    | CountI(k: Kw, n: int32)
    | UniqueI
    | StrI(k: Kw, s: bytes)
    | SubI(k: Kw, ref: Ref)
    | ManyI(k: Kw, count: nat, refs: seq<Ref>)
    | IfI(cond: Ref, thn: Option<Ref>, els: Option<Ref>)
    | RequiredI(count: nat, names: seq<bytes>)
    | PropsI(propCount: nat, patCount: nat, add: AddRule, props: seq<Rule>, pats: seq<Rule>)

  function EntryRefs(pos: nat, items: seq<Tree>): (r: seq<Ref>)
    ensures |r| == |items|
    decreases items
  {
    if items == [] then [] else [Ref(pos, items[0])] + EntryRefs(pos + Len(items[0]), items[1..])
  }

  function NamesOf(items: seq<Tree>): (r: seq<bytes>)
    ensures |r| == |items|
  {
    if items == [] then [] else [Text(TokenOf(items[0]))] + NamesOf(items[1..])
  }

  function RulesOf(pos: nat, ms: seq<Member>): (r: seq<Rule>)
    ensures |r| == |ms|
    decreases ms
  {
    if ms == [] then []
    else [Rule(Text(ms[0].key), Ref(pos + 1, ms[0].val))] + RulesOf(pos + 1 + Len(ms[0].val), ms[1..])
  }

  function RefIn(s: Slot): Option<Ref> {
    if s.Sub? then Some(s.ref) else None
  }

  function AddRuleOf(s: Slot): AddRule {
    if !s.Sub? then Allowed
    else if IsFalse(s.ref.sub) then Denied
    else if IsObject(s.ref.sub) || IsTrue(s.ref.sub) then Checked(s.ref)
    else Allowed
  }

  function RulesIn(s: Slot): seq<Rule> {
    if s.Many? && s.count > 0 && s.last.sub.Obj? then RulesOf(s.last.rel + 1, s.last.sub.members) else []
  }

  predicate HasProps(f: Fields) {
    CountIn(Get(f, KProperties)) > 0 || CountIn(Get(f, KPatternProperties)) > 0
    || Get(f, KAdditionalProperties).Sub?
  }

  /** The instruction emitted for a keyword, if any. `properties` stands for all three
      property keywords, `if` for its branches too. */
  function InstrOf(f: Fields, k: Kw): seq<Instr> {
    var s := Get(f, k);
    if k == KProperties then
      (if HasProps(f) then
         [PropsI(CountIn(s), CountIn(Get(f, KPatternProperties)), AddRuleOf(Get(f, KAdditionalProperties)),
                 RulesIn(s), RulesIn(Get(f, KPatternProperties)))]
       else [])
    else if k == KIf then
      (if s.Sub? then [IfI(s.ref, RefIn(Get(f, KThen)), RefIn(Get(f, KElse)))] else [])
    else match s
      case Empty => []
      case Types(types) => [TypeI(types)]
      case Num(bits) => [NumI(k, bits)]
      case Int(n) => [CountI(k, n)]
      case Flag(on) => if on then [UniqueI] else []
      case Str(tok) => [StrI(k, Text(tok))]
      case Sub(ref) => [SubI(k, ref)]
      case Many(last, count) =>
        if !last.sub.Arr? then []
        else if k != KRequired then [ManyI(k, count, EntryRefs(last.rel + 1, last.sub.items))]
        else if count > 0 then [RequiredI(count, NamesOf(last.sub.items))]
        else []
  }

  /** The order in which pass 2 emits; the property keywords come last, together. */
  function EmitFirst(): seq<Kw> {
    [KType, KMinimum, KMaximum, KMultipleOf, KExclusiveMinimum, KExclusiveMaximum, KPattern,
     KMinProperties, KMaxProperties, KUniqueItems, KMinLength, KMaxLength, KMinItems, KMaxItems,
     KItems, KContains, KNot, KAllOf, KAnyOf, KOneOf, KIf, KPropertyNames, KFormat, KRequired]
  }

  function EmitOrder(): seq<Kw> {
    EmitFirst() + [KProperties]
  }

  function InstrsOf(f: Fields, ks: seq<Kw>): seq<Instr> {
    if ks == [] then [] else InstrOf(f, ks[0]) + InstrsOf(f, ks[1..])
  }

  // ---------------------------------------------------------------- bytes

  function OpCode(k: Kw): byte {
    match k
    case KType => 2
    case KMinimum => 3
    case KMaximum => 4
    case KMinLength => 5
    case KMaxLength => 6
    case KMinItems => 7
    case KMaxItems => 8
    case KItems => 9
    case KRequired => 10
    case KProperties => 11
    case KMultipleOf => 12
    case KExclusiveMinimum => 13
    case KExclusiveMaximum => 14
    case KPattern => 15
    case KMinProperties => 16
    case KMaxProperties => 17
    case KUniqueItems => 18
    case KContains => 19
    case KNot => 20
    case KAllOf => 21
    case KAnyOf => 22
    case KOneOf => 23
    case KIf => 24
    case KPropertyNames => 25
    case KFormat => 26
    case _ => 0
  }

  const OP_END: byte := 0
  const OP_FAIL: byte := 1

  /** `(uint32_t)-1`, the offset of a node that no block was laid out for. */
  const NO_OFFSET: uint32 := 0xFFFF_FFFF

  function Wrap32(n: int): uint32 { n % 0x1_0000_0000 }

  function Bit(b: bool, n: nat): nat { if b then n else 0 }

  function MaskOf(types: set<SchemaType>): (m: uint32) {
    Bit(NullType in types, 1) + Bit(BoolType in types, 2) + Bit(NumberType in types, 4)
    + Bit(StringType in types, 8) + Bit(ArrayType in types, 16) + Bit(ObjectType in types, 32)
    + Bit(IntegerType in types, 64)
  }

  /** The offset pass 1 stored for the node a reference names. */
  function Offset(offs: seq<nat>, at: nat, r: Ref): uint32 {
    if at + r.rel < |offs| then Wrap32(offs[at + r.rel]) else NO_OFFSET
  }

  function OptOffset(offs: seq<nat>, at: nat, r: Option<Ref>): uint32 {
    if r.Some? then Offset(offs, at, r.value) else NO_OFFSET
  }

  function EncRefs(offs: seq<nat>, at: nat, refs: seq<Ref>): (r: bytes)
    ensures |r| == 4 * |refs|
  {
    if refs == [] then [] else U32(Offset(offs, at, refs[0])) + EncRefs(offs, at, refs[1..])
  }

  /** A string reference: its place in the constant pool and its length. */
  function EncStr(s: bytes, d: nat): (r: bytes)
    ensures |r| == 8
  {
    U32(Wrap32(d)) + U32(Wrap32(|s|))
  }

  function EncNames(names: seq<bytes>, d: nat): (r: bytes)
    ensures |r| == 8 * |names|
    decreases names
  {
    if names == [] then [] else EncStr(names[0], d) + EncNames(names[1..], d + |names[0]|)
  }

  function EncRules(offs: seq<nat>, at: nat, rules: seq<Rule>, d: nat): (r: bytes)
    ensures |r| == 12 * |rules|
    decreases rules
  {
    if rules == [] then []
    else EncStr(rules[0].name, d) + U32(Offset(offs, at, rules[0].ref))
         + EncRules(offs, at, rules[1..], d + |rules[0].name|)
  }

  function EncAdd(offs: seq<nat>, at: nat, a: AddRule): uint32 {
    match a
    case Allowed => 0xFFFF_FFFF
    case Denied => 0xFFFF_FFFE
    case Checked(ref) => Offset(offs, at, ref)
  }

  function NamesData(names: seq<bytes>): bytes {
    if names == [] then [] else names[0] + NamesData(names[1..])
  }

  function RulesData(rules: seq<Rule>): bytes {
    if rules == [] then [] else rules[0].name + RulesData(rules[1..])
  }

  /** The strings an instruction puts into the constant pool. */
  function DataOf(i: Instr): bytes {
    match i
    case StrI(_, s) => s
    case RequiredI(_, names) => NamesData(names)
    case PropsI(_, _, _, props, pats) => RulesData(props) + RulesData(pats)
    case _ => []
  }

  /** The bytes of an instruction of the schema node at `at`, when the constant pool
      already holds `d` bytes. */
  function Enc(offs: seq<nat>, at: nat, i: Instr, d: nat): (r: bytes)
    ensures |r| >= 1
  {
    match i
    case TypeI(types) => [OpCode(KType)] + U32(MaskOf(types))
    case NumI(k, bits) => [OpCode(k)] + U64(bits)
    case CountI(k, n) => [OpCode(k)] + U32(FromI32(n))
    case UniqueI => [OpCode(KUniqueItems)]
    case StrI(k, s) => [OpCode(k)] + EncStr(s, d)
    case SubI(k, ref) => [OpCode(k)] + U32(Offset(offs, at, ref))
    case ManyI(k, count, refs) => [OpCode(k)] + U32(Wrap32(count)) + EncRefs(offs, at, refs)
    case IfI(cond, thn, els) =>
      [OpCode(KIf)] + U32(Offset(offs, at, cond)) + U32(OptOffset(offs, at, thn)) + U32(OptOffset(offs, at, els))
    case RequiredI(count, names) => [OpCode(KRequired)] + U32(Wrap32(count)) + EncNames(names, d)
    case PropsI(np, npp, add, props, pats) =>
      [OpCode(KProperties)] + U32(Wrap32(np)) + U32(Wrap32(npp)) + U32(EncAdd(offs, at, add))
      + EncRules(offs, at, props, d) + EncRules(offs, at, pats, d + |RulesData(props)|)
  }

  function EncAll(offs: seq<nat>, at: nat, ins: seq<Instr>, d: nat): bytes
    decreases ins
  {
    if ins == [] then [] else Enc(offs, at, ins[0], d) + EncAll(offs, at, ins[1..], d + |DataOf(ins[0])|)
  }

  function DataAll(ins: seq<Instr>): bytes {
    if ins == [] then [] else DataOf(ins[0]) + DataAll(ins[1..])
  }

  function NodeInstrs(env: Env, t: Tree): seq<Instr> {
    if IsObject(t) then InstrsOf(Collected(env, t), EmitOrder()) else []
  }

  /** The block of one schema node, up to and including its last byte. */
  function EncNode(env: Env, offs: seq<nat>, at: nat, t: Tree, d: nat): bytes {
    if IsFalse(t) then [OP_FAIL] else EncAll(offs, at, NodeInstrs(env, t), d) + [OP_END]
  }

  lemma EncAllCons(offs: seq<nat>, at: nat, i: Instr, ins: seq<Instr>, d: nat)
    ensures EncAll(offs, at, [i] + ins, d) == Enc(offs, at, i, d) + EncAll(offs, at, ins, d + |DataOf(i)|)
    ensures DataAll([i] + ins) == DataOf(i) + DataAll(ins)
  {
    hide Enc;
    hide DataOf;
    assert ([i] + ins)[1..] == ins;
  }

  lemma EncNothing(offs: seq<nat>, at: nat, d: nat)
    ensures EncAll(offs, at, [], d) == [] && DataAll([]) == []
  {
  }

  lemma {:induction false} EncAllAppend(offs: seq<nat>, at: nat, ins: seq<Instr>, jns: seq<Instr>, d: nat)
    ensures DataAll(ins + jns) == DataAll(ins) + DataAll(jns)
    ensures EncAll(offs, at, ins + jns, d)
         == EncAll(offs, at, ins, d) + EncAll(offs, at, jns, d + |DataAll(ins)|)
    decreases |ins|, 1
  {
    hide *;
    if ins == [] {
      assert ins + jns == jns;
      EncNothing(offs, at, d);
      assert [] + EncAll(offs, at, jns, d) == EncAll(offs, at, jns, d) && [] + DataAll(jns) == DataAll(jns);
    } else {
      EncAllAppendCons(offs, at, ins[0], ins[1..], jns, d);
      assert [ins[0]] + ins[1..] == ins;
    }
  }

  lemma EncAllAppendCons(offs: seq<nat>, at: nat, i: Instr, ins: seq<Instr>, jns: seq<Instr>, d: nat)
    ensures DataAll([i] + ins + jns) == DataAll([i] + ins) + DataAll(jns)
    ensures EncAll(offs, at, [i] + ins + jns, d)
         == EncAll(offs, at, [i] + ins, d) + EncAll(offs, at, jns, d + |DataAll([i] + ins)|)
    decreases |ins|, 2
  {
    hide *;
    var e := d + |DataOf(i)|;
    EncAllAppend(offs, at, ins, jns, e);
    EncAllCons(offs, at, i, ins, d);
    EncAllCons(offs, at, i, ins + jns, d);
    Regroup([i], ins, jns);
    Regroup(Enc(offs, at, i, d), EncAll(offs, at, ins, e), EncAll(offs, at, jns, e + |DataAll(ins)|));
    Regroup(DataOf(i), DataAll(ins), DataAll(jns));
  }
}
