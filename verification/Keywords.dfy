/** Schema keywords and what each reads from a schema node
    (src/validation/schema.c, helpers and keyword table). */
module Keywords {
  import opened Bytes
  import opened Ast
  import opened Unescape

  datatype Kw =
    | KType | KMinimum | KMaximum | KMultipleOf | KExclusiveMinimum | KExclusiveMaximum
    | KMinProperties | KMaxProperties | KUniqueItems | KMinLength | KMaxLength
    | KMinItems | KMaxItems | KItems | KContains | KNot | KPropertyNames
    | KPattern | KFormat | KAllOf | KAnyOf | KOneOf | KIf | KThen | KElse
    | KRequired | KProperties | KPatternProperties | KAdditionalProperties
    | KUnknown

  function Name(k: Kw): string {
    match k
    case KType => "type"
    case KMinimum => "minimum"
    case KMaximum => "maximum"
    case KMultipleOf => "multipleOf"
    case KExclusiveMinimum => "exclusiveMinimum"
    case KExclusiveMaximum => "exclusiveMaximum"
    case KMinProperties => "minProperties"
    case KMaxProperties => "maxProperties"
    case KUniqueItems => "uniqueItems"
    case KMinLength => "minLength"
    case KMaxLength => "maxLength"
    case KMinItems => "minItems"
    case KMaxItems => "maxItems"
    case KItems => "items"
    case KContains => "contains"
    case KNot => "not"
    case KPropertyNames => "propertyNames"
    case KPattern => "pattern"
    case KFormat => "format"
    case KAllOf => "allOf"
    case KAnyOf => "anyOf"
    case KOneOf => "oneOf"
    case KIf => "if"
    case KThen => "then"
    case KElse => "else"
    case KRequired => "required"
    case KProperties => "properties"
    case KPatternProperties => "patternProperties"
    case KAdditionalProperties => "additionalProperties"
    case KUnknown => ""
  }

  function KeywordTable(): seq<Kw> {
    [KType, KMinimum, KMaximum, KMultipleOf, KExclusiveMinimum, KExclusiveMaximum,
    KMinProperties, KMaxProperties, KUniqueItems, KMinLength, KMaxLength, KMinItems, KMaxItems,
    KItems, KContains, KNot, KPropertyNames, KPattern, KFormat, KAllOf, KAnyOf, KOneOf, KIf,
    KThen, KElse, KRequired, KProperties, KPatternProperties, KAdditionalProperties]
  }

  predicate AsciiText(s: string) {
    forall i :: 0 <= i < |s| ==> s[i] as int < 256
  }

  predicate Spells(raw: bytes, s: string) {
    AsciiText(s) && raw == Ascii(s)
  }

  function LookupIn(raw: bytes, table: seq<Kw>): Kw {
    if table == [] then KUnknown
    else if Spells(raw, Name(table[0])) then table[0]
    else LookupIn(raw, table[1..])
  }

  /** The keyword a member's key names. The raw spelling decides: an escaped key is never
      a keyword. */
  function KwOfToken(t: Token): Kw {
    if t.kind == TString then LookupIn(t.raw, KeywordTable()) else KUnknown
  }

  function KwOf(m: Member): Kw {
    KwOfToken(m.key)
  }

  predicate IsNumKw(k: Kw) {
    k == KMinimum || k == KMaximum || k == KMultipleOf || k == KExclusiveMinimum || k == KExclusiveMaximum
  }

  predicate IsIntKw(k: Kw) {
    k == KMinProperties || k == KMaxProperties || k == KMinLength || k == KMaxLength
    || k == KMinItems || k == KMaxItems
  }

  predicate IsStrKw(k: Kw) { k == KPattern || k == KFormat }

  /** Keywords whose value is one subschema. */
  predicate IsSubKw(k: Kw) {
    k == KItems || k == KContains || k == KNot || k == KPropertyNames || k == KIf
  }

  predicate IsBranchKw(k: Kw) { k == KThen || k == KElse }

  predicate IsManyKw(k: Kw) { k == KAllOf || k == KAnyOf || k == KOneOf }

  predicate IsPropsKw(k: Kw) { k == KProperties || k == KPatternProperties }

  predicate IsTrue(t: Tree) { !t.skip && t.Leaf? && t.tok.kind == TTrue }

  predicate IsFalse(t: Tree) { !t.skip && t.Leaf? && t.tok.kind == TFalse }

  predicate IsStr(t: Tree) { !t.skip && t.Leaf? && t.tok.kind == TString }

  predicate IsObject(t: Tree) { !t.skip && t.Obj? }

  predicate IsArray(t: Tree) { !t.skip && t.Arr? }

  /** `is_valid_subschema_node`. */
  predicate ValidSub(t: Tree) { IsObject(t) || IsTrue(t) || IsFalse(t) }

  /** The text a token stands for: nothing unless it is a string. */
  function Text(t: Token): bytes {
    if t.kind != TString then [] else if t.esc then Unescaped(t.raw) else t.raw
  }

  /** The length `get_stripped_string` reports. */
  function RawLen(t: Token): nat {
    if t.kind == TString then |t.raw| else 0
  }

  /** What the lexer promises of a token: the escape flag tells whether there is a
      backslash, and a string body does not start with a quote. */
  ghost predicate WfToken(t: Token) {
    t.kind == TString ==>
      && (t.esc <==> BACKSLASH in t.raw)
      && (t.raw != [] ==> t.raw[0] != QUOTE)
  }

  /** Strip enclosing quotes, as the validator does before comparing. */
  function StripQuotes(raw: bytes): bytes {
    if |raw| >= 2 && raw[0] == QUOTE && raw[|raw| - 1] == QUOTE then raw[1..|raw| - 1] else raw
  }

  /** A C string ends at its first NUL. */
  function CStr(s: bytes): (r: bytes)
    ensures 0 !in s ==> r == s
    ensures 0 !in r && r <= s && (|r| < |s| ==> s[|r|] == 0)
  {
    if s == [] || s[0] == 0 then [] else [s[0]] + CStr(s[1..])
  }

  datatype SchemaType = NullType | BoolType | NumberType | StringType | ArrayType | ObjectType | IntegerType

  /** `map_type_string_to_mask`: the one flag a type name sets, if any. */
  function TypeNamed(t: Token): set<SchemaType> {
    if t.kind != TString then {}
    else if t.raw == Ascii("string") then {StringType}
    else if t.raw == Ascii("number") then {NumberType}
    else if t.raw == Ascii("integer") then {IntegerType}
    else if t.raw == Ascii("boolean") then {BoolType}
    else if t.raw == Ascii("object") then {ObjectType}
    else if t.raw == Ascii("array") then {ArrayType}
    else if t.raw == Ascii("null") then {NullType}
    else {}
  }

  function TypesNamed(items: seq<Tree>): set<SchemaType> {
    if items == [] then {} else TypeNamed(TokenOf(items[0])) + TypesNamed(items[1..])
  }

  function TypeSet(val: Tree): set<SchemaType> {
    if IsStr(val) then TypeNamed(val.tok)
    else if IsArray(val) then TypesNamed(val.items)
    else {}
  }
}
