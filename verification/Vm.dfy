/** The interpreter's state and the handlers that run no subschema
    (src/validation/validate_internal.h, src/validation/validate_opcodes.c). Errors are
    modelled by the boolean answer alone. */
module Vm {
  import opened Bytes
  import opened Ast
  import opened Unescape
  import opened Keywords
  import opened Semantics
  import opened Layout
  import opened Code
  import opened Walk
  import opened Meaning
  import opened Equality

  /** `VMState`, with the schema node being run as ghosts: its block is that of node `at`
      under offset table `offs`, and its tree has `bound` nodes. */
  class VMState {
    const env: Env
    const file: bytes
    const pool: seq<Node>
    const node: nat
    const constants: nat
    var pc: nat
    ghost const offs: seq<nat>
    ghost const at: nat
    ghost const bound: nat

    constructor (env: Env, file: bytes, pool: seq<Node>, node: nat, constants: nat, pc: nat,
                 ghost offs: seq<nat>, ghost at: nat, ghost bound: nat)
      ensures this.env == env && this.file == file && this.pool == pool && this.node == node
      ensures this.constants == constants && this.pc == pc
      ensures this.offs == offs && this.at == at && this.bound == bound
    {
      this.env, this.file, this.pool, this.node, this.constants, this.pc := env, file, pool, node, constants, pc;
      this.offs, this.at, this.bound := offs, at, bound;
    }

    method ReadByte(ghost b: byte, ghost rest: bytes) returns (r: byte)
      requires Here(file, pc, [b] + rest)
      modifies this`pc
      ensures r == b && Here(file, pc, rest)
    {
      hide Here;
      HereFirst(file, pc, [b], rest);
      ByteThere(file, pc, b);
      r := file[pc];
      pc := pc + 1;
    }

    method ReadU32(ghost v: uint32, ghost rest: bytes) returns (r: uint32)
      requires Here(file, pc, U32(v) + rest)
      modifies this`pc
      ensures r == v && Here(file, pc, rest)
    {
      hide Here;
      hide U32;
      hide GetU32;
      HereFirst(file, pc, U32(v), rest);
      Bytes.ReadU32(file, pc, v);
      r := GetU32(file, pc);
      pc := pc + 4;
    }

    method ReadI32(ghost v: int32, ghost rest: bytes) returns (r: int32)
      requires Here(file, pc, U32(FromI32(v)) + rest)
      modifies this`pc
      ensures r == v && Here(file, pc, rest)
    {
      hide Here;
      hide U32;
      var u := ReadU32(FromI32(v), rest);
      r := ToI32(u);
    }

    method ReadDouble(ghost v: Bits, ghost rest: bytes) returns (r: Bits)
      requires Here(file, pc, U64(v) + rest)
      modifies this`pc
      ensures r == v && Here(file, pc, rest)
    {
      hide Here;
      hide U64;
      hide GetU64;
      HereFirst(file, pc, U64(v), rest);
      ReadU64(file, pc, v);
      r := GetU64(file, pc);
      pc := pc + 8;
    }

    /** A string reference: `d` is its place in the constant pool. */
    method ReadText(ghost s: bytes, ghost d: nat, ghost rest: bytes) returns (r: bytes)
      requires Here(file, pc, EncStr(s, d) + rest)
      requires Here(file, constants + d, s) && |file| < 0x8000_0000
      modifies this`pc
      ensures r == s && Here(file, pc, rest)
    {
      hide *;
      EncStrIs(s, d);
      Regroup(U32(Wrap32(d)), U32(Wrap32(|s|)), rest);
      TextThere(file, constants, d, s);
      var start := ReadU32(Wrap32(d), U32(Wrap32(|s|)) + rest);
      var len := ReadU32(Wrap32(|s|), rest);
      r := file[constants + start..constants + start + len];
    }
  }

  lemma HereFirst(s: bytes, i: nat, a: bytes, b: bytes)
    requires Here(s, i, a + b)
    ensures Here(s, i, a) && Here(s, i + |a|, b)
  {
    hide Here;
    HereSplit(s, i, a, b);
  }

  lemma ByteThere(s: bytes, i: nat, b: byte)
    requires Here(s, i, [b])
    ensures i < |s| && s[i] == b
  {
    Bytes.ReadByte(s, i, b);
  }

  lemma EncStrIs(s: bytes, d: nat)
    ensures EncStr(s, d) == U32(Wrap32(d)) + U32(Wrap32(|s|))
  {
    hide U32;
    hide Wrap32;
  }

  lemma TextThere(file: bytes, constants: nat, d: nat, s: bytes)
    requires Here(file, constants + d, s) && |file| < 0x8000_0000
    ensures Wrap32(d) == d && Wrap32(|s|) == |s|
    ensures constants + d + |s| <= |file| && file[constants + d..constants + d + |s|] == s
  {
  }

  /** The value being validated. */
  ghost predicate Subject(st: VMState, d: Tree) {
    At(st.pool, st.node, d) && Sane(d)
  }

  lemma SubjectNode(st: VMState, d: Tree)
    requires Subject(st, d)
    ensures At(st.pool, st.node, d) && Sane(d)
    ensures st.node < |st.pool| && st.pool[st.node].tok == TokenOf(d)
    ensures st.pool[st.node].kind == AstLeaf <==> d.Leaf?
    ensures st.pool[st.node].kind == AstArray <==> d.Arr?
    ensures st.pool[st.node].kind == AstObject <==> d.Obj?
    ensures d.Leaf? ==> WfToken(d.tok) && LiteralKind(d.tok.kind) && TokenOf(d) == d.tok
  {
    hide At;
    hide Sane;
    hide WfToken;
    hide LiteralKind;
    SaneNode(st.pool, st.node, d);
  }

  // ---------------------------------------------------------------- type

  /** `mask & flag`, for a flag of one bit. */
  predicate HasBit(mask: uint32, flag: nat)
    requires flag > 0
  {
    mask / flag % 2 == 1
  }

  lemma LowBits(types: set<SchemaType>)
    ensures HasBit(MaskOf(types), 1) <==> NullType in types
    ensures HasBit(MaskOf(types), 2) <==> BoolType in types
    ensures HasBit(MaskOf(types), 4) <==> NumberType in types
    ensures HasBit(MaskOf(types), 8) <==> StringType in types
  {
  }

  lemma HighBits(types: set<SchemaType>)
    ensures HasBit(MaskOf(types), 16) <==> ArrayType in types
    ensures HasBit(MaskOf(types), 32) <==> ObjectType in types
    ensures HasBit(MaskOf(types), 64) <==> IntegerType in types
  {
  }

  /** `handle_type`. */
  method HandleType(st: VMState, ghost types: set<SchemaType>, ghost tail: bytes, ghost d: Tree) returns (ok: bool)
    requires Here(st.file, st.pc, U32(MaskOf(types)) + tail) && Subject(st, d)
    modifies st`pc
    ensures ok == HasType(st.env, types, d) && Here(st.file, st.pc, tail)
  {
    hide *;
    var mask := st.ReadU32(MaskOf(types), tail);
    SubjectNode(st, d);
    LowBits(types);
    HighBits(types);
    TypeCases(st.env, types, d);
    var n := st.pool[st.node];
    ok := false;
    match n.kind {
      case AstObject => ok := HasBit(mask, 32);
      case AstArray => ok := HasBit(mask, 16);
      case AstLeaf =>
        match n.tok.kind {
          case TNull => ok := HasBit(mask, 1);
          case TTrue => ok := HasBit(mask, 2);
          case TFalse => ok := HasBit(mask, 2);
          case TNumber => ok := HasBit(mask, 4) || (HasBit(mask, 64) && st.env.isInteger(ToDouble(st.env, n.tok)));
          case TString => ok := HasBit(mask, 8);
          case _ =>
        }
      case AstSkipped =>
    }
  }

  lemma TypeCases(env: Env, types: set<SchemaType>, d: Tree)
    ensures HasType(env, types, d)
         == match d
            case Obj(_, _) => ObjectType in types
            case Arr(_, _) => ArrayType in types
            case Leaf(_, tok) =>
              (match tok.kind
               case TNull => NullType in types
               case TTrue => BoolType in types
               case TFalse => BoolType in types
               case TNumber => NumberType in types || (IntegerType in types && env.isInteger(ToDouble(env, tok)))
               case TString => StringType in types
               case _ => false)
  {
    hide ToDouble;
  }

  // ---------------------------------------------------------------- numbers

  /** The comparison each numeric keyword makes. */
  predicate Compare(env: Env, k: Kw, x: Bits, bound: Bits) {
    match k
    case KMinimum => !env.lt(x, bound)
    case KMaximum => !env.lt(bound, x)
    case KExclusiveMinimum => !env.le(x, bound)
    case KExclusiveMaximum => !env.le(bound, x)
    case KMultipleOf => env.multipleOk(x, bound)
    case _ => true
  }

  lemma NumberCases(env: Env, k: Kw, bound: Bits, d: Tree)
    ensures NumberOk(env, k, bound, d) <==> (d.Leaf? && d.tok.kind == TNumber ==> Compare(env, k, ToDouble(env, d.tok), bound))
  {
    hide ToDouble;
  }

  /** `handle_minimum`, `handle_maximum`, `handle_multiple_of` and the exclusive bounds. */
  method HandleNumber(st: VMState, k: Kw, ghost bits: Bits, ghost tail: bytes, ghost d: Tree) returns (ok: bool)
    requires Here(st.file, st.pc, U64(bits) + tail) && Subject(st, d)
    modifies st`pc
    ensures ok == NumberOk(st.env, k, bits, d) && Here(st.file, st.pc, tail)
  {
    hide *;
    var bound := st.ReadDouble(bits, tail);
    SubjectNode(st, d);
    NumberCases(st.env, k, bits, d);
    var n := st.pool[st.node];
    ok := true;
    if n.kind == AstLeaf && n.tok.kind == TNumber {
      ok := Compare(st.env, k, ToDouble(st.env, n.tok), bound);
    }
  }

  // ---------------------------------------------------------------- counts

  lemma CountCases(k: Kw, n: int32, d: Tree)
    ensures k == KMinLength ==> (CountOk(k, n, d) <==> (d.Leaf? && d.tok.kind == TString ==> |d.tok.raw| >= ToSizeT(n)))
    ensures k == KMaxLength ==> (CountOk(k, n, d) <==> (d.Leaf? && d.tok.kind == TString ==> |d.tok.raw| <= ToSizeT(n)))
    ensures k == KMinItems ==> (CountOk(k, n, d) <==> (d.Arr? ==> |d.items| >= n))
    ensures k == KMaxItems ==> (CountOk(k, n, d) <==> (d.Arr? ==> |d.items| <= n))
    ensures k == KMinProperties ==> (CountOk(k, n, d) <==> (d.Obj? ==> LiveCount(d.members) >= n))
    ensures k == KMaxProperties ==> (CountOk(k, n, d) <==> (d.Obj? ==> LiveCount(d.members) <= n))
  {
    hide ToSizeT;
    hide LiveCount;
  }

  /** The six handlers that compare a length or a count with a signed limit. */
  method HandleCount(st: VMState, k: Kw, ghost n: int32, ghost tail: bytes, ghost d: Tree) returns (ok: bool)
    requires Here(st.file, st.pc, U32(FromI32(n)) + tail) && Subject(st, d) && IsIntKw(k)
    modifies st`pc
    ensures ok == CountOk(k, n, d) && Here(st.file, st.pc, tail)
  {
    hide *;
    var limit := st.ReadI32(n, tail);
    SubjectNode(st, d);
    CountCases(k, n, d);
    IntKws(k);
    var v := st.pool[st.node];
    ok := true;
    if k == KMinLength {
      if v.kind == AstLeaf && v.tok.kind == TString { ok := |v.tok.raw| >= ToSizeT(limit); }
    } else if k == KMaxLength {
      if v.kind == AstLeaf && v.tok.kind == TString { ok := |v.tok.raw| <= ToSizeT(limit); }
    } else if k == KMinItems {
      if v.kind == AstArray { var c := CountItems(st.pool, st.node, d); ok := c >= limit; }
    } else if k == KMaxItems {
      if v.kind == AstArray { var c := CountItems(st.pool, st.node, d); ok := c <= limit; }
    } else if k == KMinProperties {
      if v.kind == AstObject { var c := CountLive(st.pool, st.node, d); ok := c >= limit; }
    } else {
      if v.kind == AstObject { var c := CountLive(st.pool, st.node, d); ok := c <= limit; }
    }
  }

  lemma IntKws(k: Kw)
    requires IsIntKw(k)
    ensures k == KMinLength || k == KMaxLength || k == KMinItems || k == KMaxItems || k == KMinProperties || k == KMaxProperties
  {
  }

  // ---------------------------------------------------------------- strings

  lemma StringCases(env: Env, k: Kw, s: bytes, d: Tree)
    ensures k == KPattern ==>
              (StringOk(env, k, s, d) <==> (d.Leaf? && d.tok.kind == TString ==> env.regex(CStr(s), CStr(Text(d.tok))) == Match))
    ensures k == KFormat ==>
              (StringOk(env, k, s, d) <==> (d.Leaf? && d.tok.kind == TString ==> FormatOk(env, s, d.tok.raw)))
  {
    hide Text;
    hide CStr;
    hide FormatOk;
  }

  /** The text of a string or key token, as the validator decodes it. */
  method DecodedText(t: Token) returns (s: bytes)
    requires WfToken(t) && t.kind == TString
    ensures s == Text(t)
  {
    hide Unescaped;
    hide WfToken;
    NothingStripped(t);
    s := StripQuotes(t.raw);
    if t.esc {
      UnescapedShrinks(s);
      var buf := new byte[|s| + 1];
      var n := UnescapeString(s, buf, 0);
      assert buf[..n] == buf[..][0..n];
      s := buf[..n];
    }
  }

  /** `handle_pattern`. */
  method HandlePattern(st: VMState, ghost s: bytes, ghost at: nat, ghost tail: bytes, ghost d: Tree) returns (ok: bool)
    requires Here(st.file, st.pc, EncStr(s, at) + tail) && Here(st.file, st.constants + at, s) && |st.file| < 0x8000_0000
    requires Subject(st, d)
    modifies st`pc
    ensures ok == StringOk(st.env, KPattern, s, d) && Here(st.file, st.pc, tail)
  {
    hide *;
    var pattern := st.ReadText(s, at, tail);
    SubjectNode(st, d);
    StringCases(st.env, KPattern, s, d);
    var n := st.pool[st.node];
    ok := true;
    if n.kind == AstLeaf && n.tok.kind == TString {
      var target := DecodedText(n.tok);
      match st.env.regex(CStr(pattern), CStr(target)) {
        case NoCompile => ok := false;
        case NoMatch => ok := false;
        case Match =>
      }
    }
  }

  lemma FormatCases(env: Env, name: bytes, raw: bytes)
    ensures FormatOk(env, name, raw)
         == if name == Ascii("ipv4") then env.ipv4(raw)
            else if name == Ascii("email") then env.email(raw)
            else if name == Ascii("uuid") then env.uuid(raw)
            else if name == Ascii("date-time") then env.dateTime(raw)
            else true
  {
    hide Ascii;
  }

  /** `handle_format`. The checkers read the raw slice. */
  method HandleFormat(st: VMState, ghost s: bytes, ghost at: nat, ghost tail: bytes, ghost d: Tree) returns (ok: bool)
    requires Here(st.file, st.pc, EncStr(s, at) + tail) && Here(st.file, st.constants + at, s) && |st.file| < 0x8000_0000
    requires Subject(st, d)
    modifies st`pc
    ensures ok == StringOk(st.env, KFormat, s, d) && Here(st.file, st.pc, tail)
  {
    hide *;
    var name := st.ReadText(s, at, tail);
    SubjectNode(st, d);
    StringCases(st.env, KFormat, s, d);
    var n := st.pool[st.node];
    ok := true;
    if n.kind == AstLeaf && n.tok.kind == TString {
      NothingStripped(n.tok);
      var val := StripQuotes(n.tok.raw);
      FormatCases(st.env, name, val);
      if name == Ascii("ipv4") {
        ok := st.env.ipv4(val);
      } else if name == Ascii("email") {
        ok := st.env.email(val);
      } else if name == Ascii("uuid") {
        ok := st.env.uuid(val);
      } else if name == Ascii("date-time") {
        ok := st.env.dateTime(val);
      }
    }
  }

  // ---------------------------------------------------------------- uniqueItems

  ghost predicate PairsDiffer(env: Env, items: seq<Tree>, i: nat) {
    forall a, b :: 0 <= a < b < |items| && a < i ==> !SameTree(env, items[a], items[b])
  }

  ghost predicate RowDiffers(env: Env, items: seq<Tree>, i: nat, j: nat) {
    i < |items| && forall b :: i < b < j && b < |items| ==> !SameTree(env, items[i], items[b])
  }

  lemma RowStep(env: Env, items: seq<Tree>, i: nat, j: nat)
    requires RowDiffers(env, items, i, j) && j < |items| && !SameTree(env, items[i], items[j])
    ensures RowDiffers(env, items, i, j + 1)
  {
    hide SameTree;
  }

  lemma RowDone(env: Env, items: seq<Tree>, i: nat)
    requires PairsDiffer(env, items, i) && RowDiffers(env, items, i, |items|)
    ensures PairsDiffer(env, items, i + 1)
  {
    hide SameTree;
  }

  lemma RowStart(env: Env, items: seq<Tree>, i: nat)
    requires i < |items|
    ensures RowDiffers(env, items, i, i + 1)
  {
  }

  lemma UniqueIs(env: Env, d: Tree)
    requires d.Arr?
    ensures PairsDiffer(env, d.items, 0)
    ensures PairsDiffer(env, d.items, |d.items|) ==> Unique(env, d)
  {
    hide SameTree;
  }

  lemma NotUnique(env: Env, d: Tree, i: nat, j: nat)
    requires d.Arr? && i < j < |d.items| && SameTree(env, d.items[i], d.items[j])
    ensures !Unique(env, d)
  {
    hide SameTree;
  }

  lemma UniqueElse(env: Env, d: Tree)
    requires !d.Arr?
    ensures Unique(env, d)
  {
  }

  lemma ItemNodes(pool: seq<Node>, at: nat, t: Tree)
    requires At(pool, at, t) && Sane(t)
    ensures at < |pool| && pool[at].kind != AstSkipped
  {
    hide ItemsAt;
    hide MembersAt;
    hide WfToken;
  }

  /** One item against all later ones. */
  method FirstEqual(st: VMState, c1: nat, ghost i: nat, ghost d: Tree) returns (found: bool)
    requires Subject(st, d) && d.Arr? && i < |d.items| && ItemCursor(st.pool, st.node, d.items, i, c1)
    ensures found ==> !Unique(st.env, d)
    ensures !found ==> RowDiffers(st.env, d.items, i, |d.items|)
  {
    hide *;
    SubjectNode(st, d);
    ghost var xs := d.items;
    ItemStep(st.pool, st.node, xs, i, c1);
    SaneItem(d, i);
    RowStart(st.env, xs, i);
    var c2 := st.pool[c1].nextSibling;
    ghost var j := i + 1;
    ItemCursorEnd(st.pool, st.node, xs, j, c2);
    while c2 != -1
      invariant i < j <= |xs| && ItemCursor(st.pool, st.node, xs, j, c2)
      invariant c2 == -1 <==> j == |xs|
      invariant RowDiffers(st.env, xs, i, j)
      decreases |xs| - j
    {
      ItemStep(st.pool, st.node, xs, j, c2);
      SaneItem(d, j);
      ItemNodes(st.pool, c2, xs[j]);
      if st.pool[c2].kind != AstSkipped {
        var same := NodesEqual(st.env, st.pool, c1, c2, xs[i], xs[j]);
        if same {
          NotUnique(st.env, d, i, j);
          return true;
        }
      }
      RowStep(st.env, xs, i, j);
      c2 := st.pool[c2].nextSibling;
      j := j + 1;
      ItemCursorEnd(st.pool, st.node, xs, j, c2);
    }
    found := false;
  }

  /** `handle_unique_items`. */
  method HandleUnique(st: VMState, ghost d: Tree) returns (ok: bool)
    requires Subject(st, d)
    ensures ok == Unique(st.env, d)
  {
    hide *;
    SubjectNode(st, d);
    if st.pool[st.node].kind != AstArray {
      UniqueElse(st.env, d);
      return true;
    }
    ghost var xs := d.items;
    FirstItem(st.pool, st.node, d);
    UniqueIs(st.env, d);
    var c1 := st.pool[st.node].firstChild;
    ghost var i := 0;
    ItemCursorEnd(st.pool, st.node, xs, 0, c1);
    while c1 != -1
      invariant i <= |xs| && ItemCursor(st.pool, st.node, xs, i, c1)
      invariant c1 == -1 <==> i == |xs|
      invariant PairsDiffer(st.env, xs, i)
      decreases |xs| - i
    {
      ItemStep(st.pool, st.node, xs, i, c1);
      SaneItem(d, i);
      ItemNodes(st.pool, c1, xs[i]);
      if st.pool[c1].kind != AstSkipped {
        var found := FirstEqual(st, c1, i, d);
        if found {
          return false;
        }
      }
      RowDone(st.env, xs, i);
      c1 := st.pool[c1].nextSibling;
      i := i + 1;
      ItemCursorEnd(st.pool, st.node, xs, i, c1);
    }
    ok := true;
  }
}
