/** What it means for a value to satisfy a schema: a direct recursive reading of the schema
    tree, one keyword at a time, that knows nothing of bytecode. */
module Semantics {
  import opened Bytes
  import opened Ast
  import opened Unescape
  import opened Keywords

  datatype MatchResult = Match | NoMatch | NoCompile

  /** The foreign parts: double conversion and comparison, regular expressions, formats.
      Every theorem holds for every choice of them. */
  datatype Env = Env(
    strtod: bytes -> Bits,
    zero: Bits,
    isInteger: Bits -> bool,
    lt: (Bits, Bits) -> bool,
    le: (Bits, Bits) -> bool,
    eq: (Bits, Bits) -> bool,
    multipleOk: (Bits, Bits) -> bool,
    toInt32: Bits -> int32,
    regex: (bytes, bytes) -> MatchResult,
    ipv4: bytes -> bool,
    email: bytes -> bool,
    uuid: bytes -> bool,
    dateTime: bytes -> bool)

  /** `parse_number` and `token_get_double`: at most 127 bytes are read. */
  function ToDouble(env: Env, t: Token): Bits {
    if t.kind != TNumber then env.zero
    else env.strtod(if |t.raw| < 127 then t.raw else t.raw[..127])
  }

  function ToInt32(env: Env, t: Token): int32 {
    env.toInt32(ToDouble(env, t))
  }

  predicate IsNumber(d: Tree) { d.Leaf? && d.tok.kind == TNumber }

  predicate IsString(d: Tree) { d.Leaf? && d.tok.kind == TString }

  predicate HasType(env: Env, types: set<SchemaType>, d: Tree) {
    match d
    case Obj(_, _) => ObjectType in types
    case Arr(_, _) => ArrayType in types
    case Leaf(_, tok) =>
      match tok.kind
      case TNull => NullType in types
      case TTrue => BoolType in types
      case TFalse => BoolType in types
      case TNumber => NumberType in types || (IntegerType in types && env.isInteger(ToDouble(env, tok)))
      case TString => StringType in types
      case _ => false
  }

  /** `d` against a bound of one of the five numeric keywords. */
  predicate NumberOk(env: Env, k: Kw, bound: Bits, d: Tree) {
    IsNumber(d) ==>
      var x := ToDouble(env, d.tok);
      match k
      case KMinimum => !env.lt(x, bound)
      case KMaximum => !env.lt(bound, x)
      case KExclusiveMinimum => !env.le(x, bound)
      case KExclusiveMaximum => !env.le(bound, x)
      case KMultipleOf => env.multipleOk(x, bound)
      case _ => true
  }

  function LiveCount(ms: seq<Member>): nat {
    if ms == [] then 0 else (if ms[0].keySkip then 0 else 1) + LiveCount(ms[1..])
  }

  /** A signed 32-bit limit converted to `size_t`. */
  function ToSizeT(n: int32): nat {
    if n < 0 then n + 0x1_0000_0000_0000_0000 else n
  }

  /** `d` against a limit of one of the six counting keywords. */
  predicate CountOk(k: Kw, n: int32, d: Tree) {
    match k
    case KMinLength => IsString(d) ==> |d.tok.raw| >= ToSizeT(n)
    case KMaxLength => IsString(d) ==> |d.tok.raw| <= ToSizeT(n)
    case KMinItems => d.Arr? ==> |d.items| >= n
    case KMaxItems => d.Arr? ==> |d.items| <= n
    case KMinProperties => d.Obj? ==> LiveCount(d.members) >= n
    case KMaxProperties => d.Obj? ==> LiveCount(d.members) <= n
    case _ => true
  }

  /** `d` against a pattern or a format name. Lengths, patterns and formats read C strings
      where the library does. */
  predicate StringOk(env: Env, k: Kw, s: bytes, d: Tree) {
    IsString(d) ==>
      match k
      case KPattern => env.regex(CStr(s), CStr(Text(d.tok))) == Match
      case KFormat => FormatOk(env, s, d.tok.raw)
      case _ => true
  }

  predicate FormatOk(env: Env, name: bytes, raw: bytes) {
    if name == Ascii("ipv4") then env.ipv4(raw)
    else if name == Ascii("email") then env.email(raw)
    else if name == Ascii("uuid") then env.uuid(raw)
    else if name == Ascii("date-time") then env.dateTime(raw)
    else true
  }

  /** Two leaves are the same value: the numeral's own spelling decides first. */
  predicate SameLeaf(env: Env, a: Token, b: Token) {
    && a.kind == b.kind
    && match a.kind
       case TNull => true
       case TTrue => true
       case TFalse => true
       case TNumber => a.raw == b.raw || (|a.raw| < 128 && |b.raw| < 128 && env.eq(env.strtod(a.raw), env.strtod(b.raw)))
       case TString => a.raw == b.raw
       case _ => false
  }

  /** Position of the first live member with this raw key, or the number of members. */
  function FirstLive(ms: seq<Member>, raw: bytes): (j: nat)
    ensures j <= |ms|
    ensures j < |ms| ==> !ms[j].keySkip && ms[j].key.raw == raw
    ensures forall l :: 0 <= l < j ==> ms[l].keySkip || ms[l].key.raw != raw
  {
    if ms == [] || (!ms[0].keySkip && ms[0].key.raw == raw) then 0 else 1 + FirstLive(ms[1..], raw)
  }

  /** Structural equality: ordered arrays; of an object, the first live member of a raw key
      is what the key stands for. */
  predicate SameTree(env: Env, a: Tree, b: Tree)
    decreases a
  {
    match a
    case Leaf(_, tok) => b.Leaf? && SameLeaf(env, tok, b.tok)
    case Arr(_, items) =>
      b.Arr? && |items| == |b.items| &&
      forall i :: 0 <= i < |items| ==> SameTree(env, items[i], b.items[i])
    case Obj(_, ms) =>
      b.Obj? && LiveCount(ms) == LiveCount(b.members) &&
      forall i :: 0 <= i < |ms| && !ms[i].keySkip ==>
        var j := FirstLive(b.members, ms[i].key.raw);
        j < |b.members| && (assert ms[i].val < ms[i]; SameTree(env, ms[i].val, b.members[j].val))
  }

  predicate Unique(env: Env, d: Tree) {
    d.Arr? ==> forall i, j :: 0 <= i < j < |d.items| ==> !SameTree(env, d.items[i], d.items[j])
  }

  predicate HasKey(d: Tree, name: bytes)
    requires d.Obj?
  {
    exists i :: 0 <= i < |d.members| && !d.members[i].keySkip && Text(d.members[i].key) == name
  }

  /** Position of the first member with this decoded key, or the number of members. */
  function FirstNamed(ms: seq<Member>, name: bytes): (i: nat)
    ensures i <= |ms|
    ensures i < |ms| ==> Text(ms[i].key) == name
    ensures forall j :: 0 <= j < i ==> Text(ms[j].key) != name
  {
    if ms == [] || Text(ms[0].key) == name then 0 else 1 + FirstNamed(ms[1..], name)
  }

  function PatternResult(env: Env, pattern: Token, key: Token): MatchResult {
    env.regex(CStr(Text(pattern)), CStr(Text(key)))
  }

  predicate CoveredBy(env: Env, m: Member, key: Token) {
    IsObject(m.val) &&
    match KwOf(m)
    case KProperties => FirstNamed(m.val.members, Text(key)) < |m.val.members|
    case KPatternProperties =>
      exists p :: 0 <= p < |m.val.members| && PatternResult(env, m.val.members[p].key, key) == Match
    case _ => false
  }

  /** A member of this keyword and value replaces earlier ones of the same keyword. */
  predicate TakesOver(k: Kw, v: Tree) {
    if IsSubKw(k) || IsBranchKw(k) then ValidSub(v)
    else if IsManyKw(k) || k == KRequired then IsArray(v)
    else if IsPropsKw(k) then IsObject(v)
    else k != KUnknown
  }

  /** A later member of the same keyword has replaced member `i`. */
  predicate Replaced(ms: seq<Member>, i: nat)
    requires i < |ms|
  {
    exists j :: i < j < |ms| && KwOf(ms[j]) == KwOf(ms[i]) && TakesOver(KwOf(ms[j]), ms[j].val)
  }

  /** Some `properties` or `patternProperties` member of the schema applies to this key. */
  predicate Covered(env: Env, schema: seq<Member>, key: Token) {
    exists i :: 0 <= i < |schema| && !Replaced(schema, i) && CoveredBy(env, schema[i], key)
  }

  predicate Accepts(env: Env, s: Tree, d: Tree)
    decreases s, 3
  {
    if s.skip then true
    else match s
      case Leaf(_, tok) => tok.kind != TFalse
      case Arr(_, _) => true
      case Obj(_, ms) => forall i :: 0 <= i < |ms| && !Replaced(ms, i) ==> Asserts(env, s, i, d)
  }

  /** What member `i` of the schema object `s` demands of `d`. */
  predicate Asserts(env: Env, s: Tree, i: nat, d: Tree)
    requires s.Obj? && i < |s.members|
    decreases s, 2
  {
    var k := KwOf(s.members[i]);
    var v := s.members[i].val;
    assert v < s.members[i];
    if IsNumKw(k) then NumberOk(env, k, ToDouble(env, TokenOf(v)), d)
    else if IsIntKw(k) then CountOk(k, ToInt32(env, TokenOf(v)), d)
    else if IsStrKw(k) then StringOk(env, k, Text(TokenOf(v)), d)
    else match k
      case KType => HasType(env, TypeSet(v), d)
      case KUniqueItems => IsTrue(v) ==> Unique(env, d)
      case KItems => ValidSub(v) ==> ItemsOk(env, v, d)
      case KContains => ValidSub(v) ==> ContainsOk(env, v, d)
      case KNot => ValidSub(v) ==> !Accepts(env, v, d)
      case KPropertyNames => ValidSub(v) ==> NamesOk(env, v, d)
      case KAllOf => IsArray(v) ==> AllOk(env, v, d)
      case KAnyOf => IsArray(v) ==> AnyOk(env, v, d)
      case KOneOf => IsArray(v) ==> OneOk(env, v, d)
      case KIf => ValidSub(v) ==> BranchOk(env, s, if Accepts(env, v, d) then KThen else KElse, d)
      case KRequired => IsArray(v) ==> RequiredOk(v, d)
      case KProperties => IsObject(v) ==> PropertiesOk(env, v, d)
      case KPatternProperties => IsObject(v) ==> PatternsOk(env, v, d)
      case KAdditionalProperties => ValidSub(v) ==> AdditionalOk(env, s.members, v, d)
      case _ => true
  }

  predicate ItemsOk(env: Env, v: Tree, d: Tree)
    decreases v, 4
  {
    d.Arr? ==> forall j :: 0 <= j < |d.items| ==> Accepts(env, v, d.items[j])
  }

  predicate ContainsOk(env: Env, v: Tree, d: Tree)
    decreases v, 4
  {
    d.Arr? ==> exists j :: 0 <= j < |d.items| && Accepts(env, v, d.items[j])
  }

  predicate NamesOk(env: Env, v: Tree, d: Tree)
    decreases v, 4
  {
    d.Obj? ==>
      forall j :: 0 <= j < |d.members| && !d.members[j].keySkip
        ==> Accepts(env, v, Leaf(false, d.members[j].key))
  }

  /** An entry of allOf, anyOf or oneOf that is no schema counts as satisfied. */
  predicate EntryOk(env: Env, e: Tree, d: Tree)
    decreases e, 4
  {
    !ValidSub(e) || Accepts(env, e, d)
  }

  predicate AllOk(env: Env, v: Tree, d: Tree)
    requires v.Arr?
    decreases v, 0
  {
    forall j :: 0 <= j < |v.items| ==> EntryOk(env, v.items[j], d)
  }

  predicate AnyOk(env: Env, v: Tree, d: Tree)
    requires v.Arr?
    decreases v, 0
  {
    exists j :: 0 <= j < |v.items| && EntryOk(env, v.items[j], d)
  }

  predicate OneOk(env: Env, v: Tree, d: Tree)
    requires v.Arr?
    decreases v, 0
  {
    exists j :: 0 <= j < |v.items| && EntryOk(env, v.items[j], d)
      && forall l :: 0 <= l < |v.items| && l != j ==> !EntryOk(env, v.items[l], d)
  }

  /** The `then` or `else` schema beside an `if`. */
  predicate BranchOk(env: Env, s: Tree, branch: Kw, d: Tree)
    requires s.Obj?
    decreases s, 1
  {
    forall j :: 0 <= j < |s.members| && KwOf(s.members[j]) == branch && ValidSub(s.members[j].val) && !Replaced(s.members, j)
      ==> (assert s.members[j].val < s.members[j]; Accepts(env, s.members[j].val, d))
  }

  predicate RequiredOk(v: Tree, d: Tree)
    requires v.Arr?
  {
    d.Obj? ==> forall j :: 0 <= j < |v.items| ==> HasKey(d, CStr(Text(TokenOf(v.items[j]))))
  }

  predicate PropertiesOk(env: Env, v: Tree, d: Tree)
    requires v.Obj?
    decreases v, 1
  {
    d.Obj? ==>
      forall j :: 0 <= j < |d.members| && !d.members[j].keySkip
        ==> PropertyOk(env, v, d.members[j].key, d.members[j].val)
  }

  /** The first property of that name decides. */
  predicate PropertyOk(env: Env, v: Tree, key: Token, x: Tree)
    requires v.Obj?
    decreases v, 0
  {
    var p := FirstNamed(v.members, Text(key));
    p < |v.members| ==> (assert v.members[p].val < v.members[p]; Accepts(env, v.members[p].val, x))
  }

  predicate PatternsOk(env: Env, v: Tree, d: Tree)
    requires v.Obj?
    decreases v, 1
  {
    d.Obj? ==>
      forall j, p :: 0 <= j < |d.members| && !d.members[j].keySkip && 0 <= p < |v.members|
        ==> PatternOk(env, v, p, d.members[j].key, d.members[j].val)
  }

  /** A pattern that does not compile rejects the object. */
  predicate PatternOk(env: Env, v: Tree, p: nat, key: Token, x: Tree)
    requires v.Obj? && p < |v.members|
    decreases v, 0
  {
    match PatternResult(env, v.members[p].key, key)
    case Match => (assert v.members[p].val < v.members[p]; Accepts(env, v.members[p].val, x))
    case NoMatch => true
    case NoCompile => false
  }

  predicate AdditionalOk(env: Env, schema: seq<Member>, v: Tree, d: Tree)
    decreases v, 4
  {
    d.Obj? ==>
      forall j :: 0 <= j < |d.members| && !d.members[j].keySkip && !Covered(env, schema, d.members[j].key)
        ==> Accepts(env, v, d.members[j].val)
  }
}
