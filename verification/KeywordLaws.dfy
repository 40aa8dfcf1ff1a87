/** What each keyword says, key bytes and all: the meaning of schemas with one keyword, stated
    over the bytes of the key and the value alone. */
module KeywordLaws {
  import opened Bytes
  import opened Ast
  import opened Unescape
  import opened Keywords
  import opened KeyTree
  import opened Semantics
  import opened Truth

  // ---------------------------------------------------------------- which bytes name a keyword

  /** A keyword told from a few letters of its name. */
  function Guess(s: string): Kw
    requires |s| >= 2
  {
    if |s| == 2 then KIf
    else if |s| == 3 then KNot
    else if |s| == 4 then (if s[1] == 'y' then KType else if s[1] == 'h' then KThen else KElse)
    else if |s| == 5 then (if s[0] == 'i' then KItems else if s[0] == 'o' then KOneOf else if s[1] == 'l' then KAllOf else KAnyOf)
    else if |s| == 6 then KFormat
    else if |s| == 7 then (if s[0] == 'p' then KPattern else if s[1] == 'i' then KMinimum else KMaximum)
    else if |s| == 8 then
      (if s[0] == 'c' then KContains else if s[0] == 'r' then KRequired else if s[1] == 'i' then KMinItems else KMaxItems)
    else if |s| == 9 then (if s[1] == 'i' then KMinLength else KMaxLength)
    else if |s| == 10 then (if s[0] == 'm' then KMultipleOf else KProperties)
    else if |s| == 11 then KUniqueItems
    else if |s| == 13 then (if s[0] == 'p' then KPropertyNames else if s[1] == 'i' then KMinProperties else KMaxProperties)
    else if |s| == 16 then (if s[10] == 'i' then KExclusiveMinimum else KExclusiveMaximum)
    else if |s| == 17 then KPatternProperties
    else KAdditionalProperties
  }

  lemma NameGuessed(k: Kw)
    requires k != KUnknown
    ensures |Name(k)| >= 2 && Guess(Name(k)) == k
  {
  }

  lemma SpelledSame(raw: bytes, s: string, t: string)
    requires Spells(raw, s) && Spells(raw, t)
    ensures s == t
  {
    forall i | 0 <= i < |s| ensures s[i] == t[i] {
      assert raw[i] as int == s[i] as int == t[i] as int;
    }
  }

  lemma {:induction false} LookupFinds(raw: bytes, table: seq<Kw>, k: Kw)
    requires k != KUnknown && k in table && Spells(raw, Name(k))
    ensures LookupIn(raw, table) == k
  {
    hide Name;
    hide Guess;
    hide Spells;
    if Spells(raw, Name(table[0])) {
      SpelledSame(raw, Name(table[0]), Name(k));
      NameGuessed(k);
      UnknownName();
      if table[0] != KUnknown {
        NameGuessed(table[0]);
      }
    } else {
      LookupFinds(raw, table[1..], k);
    }
  }

  lemma UnknownName()
    ensures Name(KUnknown) == ""
  {
  }

  lemma TableHolds(k: Kw)
    requires k != KUnknown
    ensures k in KeywordTable()
  {
    var t := KeywordTable();
    match k {
      case KType => assert t[0] == k;
      case KMinimum => assert t[1] == k;
      case KMaximum => assert t[2] == k;
      case KMultipleOf => assert t[3] == k;
      case KExclusiveMinimum => assert t[4] == k;
      case KExclusiveMaximum => assert t[5] == k;
      case KMinProperties => assert t[6] == k;
      case KMaxProperties => assert t[7] == k;
      case KUniqueItems => assert t[8] == k;
      case KMinLength => assert t[9] == k;
      case KMaxLength => assert t[10] == k;
      case KMinItems => assert t[11] == k;
      case KMaxItems => assert t[12] == k;
      case KItems => assert t[13] == k;
      case KContains => assert t[14] == k;
      case KNot => assert t[15] == k;
      case KPropertyNames => assert t[16] == k;
      case KPattern => assert t[17] == k;
      case KFormat => assert t[18] == k;
      case KAllOf => assert t[19] == k;
      case KAnyOf => assert t[20] == k;
      case KOneOf => assert t[21] == k;
      case KIf => assert t[22] == k;
      case KThen => assert t[23] == k;
      case KElse => assert t[24] == k;
      case KRequired => assert t[25] == k;
      case KProperties => assert t[26] == k;
      case KPatternProperties => assert t[27] == k;
      case KAdditionalProperties => assert t[28] == k;
    }
  }

  lemma KeyNames(k: Kw, raw: bytes)
    requires k != KUnknown && Spells(raw, Name(k))
    ensures forall esc: bool :: KwOfToken(Token(TString, raw, esc)) == k
  {
    hide Name;
    hide Spells;
    hide KeywordTable;
    TableHolds(k);
    LookupFinds(raw, KeywordTable(), k);
  }

  lemma {:induction false} LookupSpelled(raw: bytes, table: seq<Kw>)
    ensures LookupIn(raw, table) == KUnknown || Spells(raw, Name(LookupIn(raw, table)))
  {
    hide Name;
    hide Spells;
    if table != [] && !Spells(raw, Name(table[0])) {
      LookupSpelled(raw, table[1..]);
    }
  }

  // ---------------------------------------------------------------- schemas with one keyword

  /** A schema: an object, true or false. */
  predicate IsSchema(v: Tree) { !v.skip && (v.Obj? || (v.Leaf? && v.tok.kind in {TTrue, TFalse})) }

  lemma SchemaIs(v: Tree)
    ensures ValidSub(v) <==> IsSchema(v)
  {
  }

  /** The schema object with this one member. */
  function Only(key: bytes, v: Tree): Tree {
    Obj(false, [Member(Token(TString, key, false), false, v)])
  }

  /** The double a node is read as: at most 127 bytes of a numeral, zero for anything else. */
  function Reading(env: Env, t: Tree): Bits {
    if t.Leaf? && t.tok.kind == TNumber then
      (if |t.tok.raw| <= 127 then env.strtod(t.tok.raw) else env.strtod(t.tok.raw[..127]))
    else env.zero
  }

  lemma ReadingIs(env: Env, t: Tree)
    ensures ToDouble(env, TokenOf(t)) == Reading(env, t) && ToInt32(env, TokenOf(t)) == env.toInt32(Reading(env, t))
  {
    if t.Leaf? && t.tok.kind == TNumber && |t.tok.raw| == 127 {
      assert t.tok.raw[..127] == t.tok.raw;
    }
  }

  /** A schema with one member accepts what that member demands. */
  lemma OnlyAsserts(env: Env, key: bytes, k: Kw, v: Tree, d: Tree)
    requires k != KUnknown && Spells(key, Name(k))
    ensures var s := Only(key, v);
            && s.Obj? && |s.members| == 1 && KwOf(s.members[0]) == k && s.members[0].val == v
            && Accepts(env, s, d) == Asserts(env, s, 0, d)
  {
    hide Asserts;
    hide KwOfToken;
    hide Spells;
    hide TakesOver;
    KeyNames(k, key);
    var s := Only(key, v);
    assert !Replaced(s.members, 0);
  }

  // ---------------------------------------------------------------- numbers and counts

  /** The five numeric keywords. */
  lemma NumberLaws(env: Env, v: Tree, d: Tree)
    requires d.Leaf? && d.tok.kind == TNumber
    ensures var x, bound := Reading(env, d), Reading(env, v);
            && (Accepts(env, Only(Ascii("minimum"), v), d) <==> !env.lt(x, bound))
            && (Accepts(env, Only(Ascii("maximum"), v), d) <==> !env.lt(bound, x))
            && (Accepts(env, Only(Ascii("exclusiveMinimum"), v), d) <==> !env.le(x, bound))
            && (Accepts(env, Only(Ascii("exclusiveMaximum"), v), d) <==> !env.le(bound, x))
            && (Accepts(env, Only(Ascii("multipleOf"), v), d) <==> env.multipleOk(x, bound))
  {
    hide Accepts;
    hide Asserts;
    hide KwOf;
    hide ToDouble;
    hide Reading;
    hide Ascii;
    hide Only;
    hide Spells;
    hide Name;
    NumberKeywords();
    NumberLaw(env, Ascii("minimum"), KMinimum, v, d);
    NumberLaw(env, Ascii("maximum"), KMaximum, v, d);
    NumberLaw(env, Ascii("exclusiveMinimum"), KExclusiveMinimum, v, d);
    NumberLaw(env, Ascii("exclusiveMaximum"), KExclusiveMaximum, v, d);
    NumberLaw(env, Ascii("multipleOf"), KMultipleOf, v, d);
  }

  lemma NumberKeywords()
    ensures Spells(Ascii("minimum"), Name(KMinimum)) && Spells(Ascii("maximum"), Name(KMaximum))
    ensures Spells(Ascii("exclusiveMinimum"), Name(KExclusiveMinimum)) && Spells(Ascii("exclusiveMaximum"), Name(KExclusiveMaximum))
    ensures Spells(Ascii("multipleOf"), Name(KMultipleOf))
  {
  }

  lemma NumberLaw(env: Env, key: bytes, k: Kw, v: Tree, d: Tree)
    requires k != KUnknown && IsNumKw(k) && Spells(key, Name(k))
    ensures Accepts(env, Only(key, v), d) == NumberOk(env, k, Reading(env, v), d)
    ensures d.Leaf? && d.tok.kind == TNumber ==> ToDouble(env, d.tok) == Reading(env, d)
  {
    hide Accepts;
    hide Asserts;
    hide KwOf;
    hide ToDouble;
    hide ToInt32;
    hide Reading;
    hide NumberOk;
    hide Spells;
    OnlyAsserts(env, key, k, v, d);
    AssertsPlain(env, Only(key, v), 0, d);
    ReadingIs(env, v);
    ReadingIs(env, d);
  }

  /** They let everything but numbers pass. */
  lemma NumbersOnly(env: Env, v: Tree, d: Tree)
    requires !(d.Leaf? && d.tok.kind == TNumber)
    ensures Accepts(env, Only(Ascii("minimum"), v), d) && Accepts(env, Only(Ascii("maximum"), v), d)
    ensures Accepts(env, Only(Ascii("exclusiveMinimum"), v), d) && Accepts(env, Only(Ascii("exclusiveMaximum"), v), d)
    ensures Accepts(env, Only(Ascii("multipleOf"), v), d)
  {
    hide Accepts;
    hide Asserts;
    hide KwOf;
    hide ToDouble;
    hide Reading;
    hide Ascii;
    hide Only;
    hide Spells;
    hide Name;
    NumberKeywords();
    NumberLaw(env, Ascii("minimum"), KMinimum, v, d);
    NumberLaw(env, Ascii("maximum"), KMaximum, v, d);
    NumberLaw(env, Ascii("exclusiveMinimum"), KExclusiveMinimum, v, d);
    NumberLaw(env, Ascii("exclusiveMaximum"), KExclusiveMaximum, v, d);
    NumberLaw(env, Ascii("multipleOf"), KMultipleOf, v, d);
  }

  /** The members that are no duplicates. */
  function LiveMembers(ms: seq<Member>): set<nat> {
    set i: nat | i < |ms| && !ms[i].keySkip
  }

  function Shift(a: set<nat>): (r: set<nat>)
    ensures forall y: nat :: y in r <==> y >= 1 && y - 1 in a
  {
    var r := set i: nat | i in a :: i + 1;
    assert forall x: nat :: x in a ==> x + 1 in r;
    r
  }

  lemma {:induction false} ShiftCount(a: set<nat>)
    ensures |Shift(a)| == |a|
    decreases |a|
  {
    hide Shift;
    if a == {} {
      assert Shift(a) == {};
    } else {
      var x :| x in a;
      var rest := a - {x};
      ShiftCount(rest);
      assert Shift(a) == Shift(rest) + {x + 1} by {
        forall y: nat ensures y in Shift(a) <==> y in Shift(rest) + {x + 1} {
        }
      }
    }
  }

  lemma {:induction false} LiveCounted(ms: seq<Member>)
    ensures LiveCount(ms) == |LiveMembers(ms)|
  {
    hide Shift;
    if ms == [] {
      assert LiveMembers(ms) == {};
    } else {
      var rest := LiveMembers(ms[1..]);
      LiveCounted(ms[1..]);
      ShiftCount(rest);
      var all := Shift(rest) + (if ms[0].keySkip then {} else {0});
      forall i: nat ensures i in LiveMembers(ms) <==> i in all {
        if i > 0 {
          assert i in Shift(rest) <==> i - 1 in rest;
        }
      }
      assert LiveMembers(ms) == all;
    }
  }

  /** Lengths are compared with unsigned 64-bit numbers. */
  lemma LengthLaws(env: Env, v: Tree, d: Tree)
    ensures var n: int := env.toInt32(Reading(env, v));
            var len := if n < 0 then n + 0x1_0000_0000_0000_0000 else n;
            && (Accepts(env, Only(Ascii("minLength"), v), d) <==> (d.Leaf? && d.tok.kind == TString ==> |d.tok.raw| >= len))
            && (Accepts(env, Only(Ascii("maxLength"), v), d) <==> (d.Leaf? && d.tok.kind == TString ==> |d.tok.raw| <= len))
  {
    hide Accepts;
    hide Asserts;
    hide KwOf;
    hide Reading;
    hide Ascii;
    hide Only;
    hide LiveCount;
    hide LiveMembers;
    CountLaw(env, Ascii("minLength"), KMinLength, v, d);
    CountLaw(env, Ascii("maxLength"), KMaxLength, v, d);
  }

  lemma ItemCountLaws(env: Env, v: Tree, d: Tree)
    ensures var n := env.toInt32(Reading(env, v));
            && (Accepts(env, Only(Ascii("minItems"), v), d) <==> (d.Arr? ==> |d.items| >= n))
            && (Accepts(env, Only(Ascii("maxItems"), v), d) <==> (d.Arr? ==> |d.items| <= n))
  {
    hide Accepts;
    hide Asserts;
    hide KwOf;
    hide Reading;
    hide Ascii;
    hide Only;
    hide LiveCount;
    hide LiveMembers;
    CountLaw(env, Ascii("minItems"), KMinItems, v, d);
    CountLaw(env, Ascii("maxItems"), KMaxItems, v, d);
  }

  lemma PropertyCountLaws(env: Env, v: Tree, d: Tree)
    ensures var n := env.toInt32(Reading(env, v));
            && (Accepts(env, Only(Ascii("minProperties"), v), d) <==> (d.Obj? ==> |LiveMembers(d.members)| >= n))
            && (Accepts(env, Only(Ascii("maxProperties"), v), d) <==> (d.Obj? ==> |LiveMembers(d.members)| <= n))
  {
    hide Accepts;
    hide Asserts;
    hide KwOf;
    hide Reading;
    hide Ascii;
    hide Only;
    hide LiveCount;
    hide LiveMembers;
    CountLaw(env, Ascii("minProperties"), KMinProperties, v, d);
    CountLaw(env, Ascii("maxProperties"), KMaxProperties, v, d);
    if d.Obj? {
      LiveCounted(d.members);
    }
  }

  lemma CountLaw(env: Env, key: bytes, k: Kw, v: Tree, d: Tree)
    requires k != KUnknown && IsIntKw(k) && Spells(key, Name(k))
    ensures Accepts(env, Only(key, v), d) == CountOk(k, env.toInt32(Reading(env, v)), d)
  {
    hide Accepts;
    hide Asserts;
    hide KwOf;
    hide ToDouble;
    hide ToInt32;
    hide Reading;
    hide CountOk;
    hide Spells;
    OnlyAsserts(env, key, k, v, d);
    AssertsPlain(env, Only(key, v), 0, d);
    ReadingIs(env, v);
  }

  // ---------------------------------------------------------------- types

  function Str(raw: bytes): Tree { Leaf(false, Token(TString, raw, false)) }

  /** What the seven type names stand for. */
  predicate IsOfType(env: Env, name: bytes, d: Tree) {
    || (name == Ascii("string") && d.Leaf? && d.tok.kind == TString)
    || (name == Ascii("number") && d.Leaf? && d.tok.kind == TNumber)
    || (name == Ascii("integer") && d.Leaf? && d.tok.kind == TNumber && env.isInteger(Reading(env, d)))
    || (name == Ascii("boolean") && d.Leaf? && (d.tok.kind == TTrue || d.tok.kind == TFalse))
    || (name == Ascii("object") && d.Obj?)
    || (name == Ascii("array") && d.Arr?)
    || (name == Ascii("null") && d.Leaf? && d.tok.kind == TNull)
  }

  lemma TypeNames()
    ensures |Ascii("string")| == 6 && |Ascii("number")| == 6 && |Ascii("integer")| == 7 && |Ascii("boolean")| == 7
    ensures |Ascii("object")| == 6 && |Ascii("array")| == 5 && |Ascii("null")| == 4
    ensures Ascii("string")[0] == 115 && Ascii("number")[0] == 110 && Ascii("object")[0] == 111
    ensures Ascii("integer")[0] == 105 && Ascii("boolean")[0] == 98
  {
  }

  lemma NamedType(env: Env, t: Token, d: Tree)
    ensures HasType(env, TypeNamed(t), d) <==> t.kind == TString && IsOfType(env, t.raw, d)
  {
    TypeNames();
    hide Ascii;
    hide ToDouble;
    hide Reading;
    if d.Leaf? {
      ReadingIs(env, d);
    }
  }

  /** `type` with a name, or with an array of names of which one must apply. */
  lemma TypeLaw(env: Env, v: Tree, d: Tree)
    requires !v.skip
    ensures Accepts(env, Only(Ascii("type"), v), d) <==>
            || (v.Leaf? && v.tok.kind == TString && IsOfType(env, v.tok.raw, d))
            || (v.Arr? && exists i :: 0 <= i < |v.items| && NamesType(env, v.items[i], d))
  {
    hide Accepts;
    hide Asserts;
    hide KwOf;
    hide HasType;
    hide TypeNamed;
    hide TypesNamed;
    hide IsOfType;
    hide NamesType;
    OnlyAsserts(env, Ascii("type"), KType, v, d);
    AssertsPlain(env, Only(Ascii("type"), v), 0, d);
    hide Ascii;
    NoTypes(env, d);
    if v.Leaf? {
      NamedType(env, v.tok, d);
    } else if v.Arr? {
      TypeList(env, v.items, d);
    }
  }

  predicate NamesType(env: Env, item: Tree, d: Tree) {
    item.Leaf? && item.tok.kind == TString && IsOfType(env, item.tok.raw, d)
  }

  lemma NoTypes(env: Env, d: Tree)
    ensures !HasType(env, {}, d)
  {
  }

  lemma MoreTypes(env: Env, a: set<SchemaType>, b: set<SchemaType>, d: Tree)
    ensures HasType(env, a + b, d) <==> HasType(env, a, d) || HasType(env, b, d)
  {
    hide ToDouble;
  }

  lemma {:induction false} TypeList(env: Env, items: seq<Tree>, d: Tree)
    ensures HasType(env, TypesNamed(items), d) <==> exists i :: 0 <= i < |items| && NamesType(env, items[i], d)
  {
    hide HasType;
    hide TypeNamed;
    hide IsOfType;
    NoTypes(env, d);
    if items != [] {
      TypeList(env, items[1..], d);
      MoreTypes(env, TypeNamed(TokenOf(items[0])), TypesNamed(items[1..]), d);
      NamedType(env, TokenOf(items[0]), d);
      assert forall i :: 1 <= i < |items| ==> items[i] == items[1..][i - 1];
    }
  }

  // ---------------------------------------------------------------- strings

  /** A pattern is matched against the decoded text, both cut at a NUL; a format against the
      text as it is spelled. Formats of other names let every string pass. */
  lemma StringLaws(env: Env, t: Token, d: Tree)
    requires t.kind == TString && d.Leaf? && d.tok.kind == TString
    ensures Accepts(env, Only(Ascii("pattern"), Leaf(false, t)), d) <==> env.regex(CStr(KeyText(t)), CStr(KeyText(d.tok))) == Match
    ensures var s := Only(Ascii("format"), Leaf(false, t));
            && (KeyText(t) == Ascii("ipv4") ==> Accepts(env, s, d) == env.ipv4(d.tok.raw))
            && (KeyText(t) == Ascii("email") ==> Accepts(env, s, d) == env.email(d.tok.raw))
            && (KeyText(t) == Ascii("uuid") ==> Accepts(env, s, d) == env.uuid(d.tok.raw))
            && (KeyText(t) == Ascii("date-time") ==> Accepts(env, s, d) == env.dateTime(d.tok.raw))
            && (KeyText(t) !in {Ascii("ipv4"), Ascii("email"), Ascii("uuid"), Ascii("date-time")} ==> Accepts(env, s, d))
  {
    hide Accepts;
    hide Asserts;
    hide KwOf;
    hide Unescaped;
    hide Only;
    hide Spells;
    hide Name;
    FormatNames();
    TextKeywords();
    StringLaw(env, Ascii("pattern"), KPattern, t, d);
    StringLaw(env, Ascii("format"), KFormat, t, d);
    hide Ascii;
    hide CStr;
  }

  lemma TextKeywords()
    ensures Spells(Ascii("pattern"), Name(KPattern)) && Spells(Ascii("format"), Name(KFormat))
  {
  }

  lemma FormatNames()
    ensures |Ascii("ipv4")| == 4 && |Ascii("email")| == 5 && |Ascii("uuid")| == 4 && |Ascii("date-time")| == 9
    ensures Ascii("ipv4")[0] == 105 && Ascii("uuid")[0] == 117
  {
  }

  lemma StringLaw(env: Env, key: bytes, k: Kw, t: Token, d: Tree)
    requires k != KUnknown && IsStrKw(k) && Spells(key, Name(k))
    ensures Accepts(env, Only(key, Leaf(false, t)), d) == StringOk(env, k, Text(t), d)
  {
    hide Accepts;
    hide Asserts;
    hide KwOf;
    hide StringOk;
    hide Text;
    hide Spells;
    OnlyAsserts(env, key, k, Leaf(false, t), d);
    AssertsPlain(env, Only(key, Leaf(false, t)), 0, d);
  }

  lemma StringsOnly(env: Env, t: Token, d: Tree)
    requires !(d.Leaf? && d.tok.kind == TString)
    ensures Accepts(env, Only(Ascii("pattern"), Leaf(false, t)), d) && Accepts(env, Only(Ascii("format"), Leaf(false, t)), d)
  {
    hide Accepts;
    hide Asserts;
    hide KwOf;
    hide Text;
    hide Only;
    StringLaw(env, Ascii("pattern"), KPattern, t, d);
    StringLaw(env, Ascii("format"), KFormat, t, d);
  }

  // ---------------------------------------------------------------- arrays

  /** `uniqueItems`, when it is true, wants no two items to be equal. */
  lemma UniqueLaw(env: Env, v: Tree, d: Tree)
    ensures Accepts(env, Only(Ascii("uniqueItems"), v), d) <==>
            ((!v.skip && v.Leaf? && v.tok.kind == TTrue && d.Arr?) ==>
               forall i, j :: 0 <= i < j < |d.items| ==> !SameTree(env, d.items[i], d.items[j]))
  {
    hide Accepts;
    hide Asserts;
    hide KwOf;
    hide SameTree;
    OnlyAsserts(env, Ascii("uniqueItems"), KUniqueItems, v, d);
    AssertsPlain(env, Only(Ascii("uniqueItems"), v), 0, d);
    hide Ascii;
  }

  lemma ItemsLaw(env: Env, v: Tree, d: Tree)
    requires IsSchema(v)
    ensures Accepts(env, Only(Ascii("items"), v), d) <==> (d.Arr? ==> forall j :: 0 <= j < |d.items| ==> Accepts(env, v, d.items[j]))
    ensures Accepts(env, Only(Ascii("contains"), v), d) <==> (d.Arr? ==> exists j :: 0 <= j < |d.items| && Accepts(env, v, d.items[j]))
  {
    SchemaIs(v);
    hide IsSchema;
    hide Accepts;
    hide Asserts;
    hide KwOf;
    hide ValidSub;
    hide Only;
    SubLaw(env, Ascii("items"), KItems, v, d);
    SubLaw(env, Ascii("contains"), KContains, v, d);
    hide Ascii;
  }

  lemma SubLaw(env: Env, key: bytes, k: Kw, v: Tree, d: Tree)
    requires Spells(key, Name(k))
    ensures k == KItems ==> (Accepts(env, Only(key, v), d) <==> (ValidSub(v) ==> ItemsOk(env, v, d)))
    ensures k == KContains ==> (Accepts(env, Only(key, v), d) <==> (ValidSub(v) ==> ContainsOk(env, v, d)))
    ensures k == KNot ==> (Accepts(env, Only(key, v), d) <==> (ValidSub(v) ==> !Accepts(env, v, d)))
    ensures k == KPropertyNames ==> (Accepts(env, Only(key, v), d) <==> (ValidSub(v) ==> NamesOk(env, v, d)))
    ensures k == KAllOf ==> (Accepts(env, Only(key, v), d) <==> (IsArray(v) ==> AllOk(env, v, d)))
    ensures k == KAnyOf ==> (Accepts(env, Only(key, v), d) <==> (IsArray(v) ==> AnyOk(env, v, d)))
    ensures k == KOneOf ==> (Accepts(env, Only(key, v), d) <==> (IsArray(v) ==> OneOk(env, v, d)))
    ensures k == KRequired ==> (Accepts(env, Only(key, v), d) <==> (IsArray(v) ==> RequiredOk(v, d)))
  {
    hide Accepts;
    hide Asserts;
    hide KwOf;
    hide ValidSub;
    hide ItemsOk;
    hide ContainsOk;
    hide NamesOk;
    hide AllOk;
    hide AnyOk;
    hide OneOk;
    hide RequiredOk;
    hide Spells;
    if k in {KItems, KContains, KNot, KPropertyNames, KAllOf, KAnyOf, KOneOf, KRequired} {
      OnlyAsserts(env, key, k, v, d);
      AssertsNested(env, Only(key, v), 0, d);
    }
  }

  /** What is no schema is ignored. */
  lemma NoSchemaIgnored(env: Env, v: Tree, d: Tree)
    requires !IsSchema(v)
    ensures Accepts(env, Only(Ascii("items"), v), d) && Accepts(env, Only(Ascii("contains"), v), d)
    ensures Accepts(env, Only(Ascii("not"), v), d) && Accepts(env, Only(Ascii("propertyNames"), v), d)
  {
    SchemaIs(v);
    hide IsSchema;
    hide Accepts;
    hide Asserts;
    hide KwOf;
    hide ValidSub;
    hide Only;
    SubLaw(env, Ascii("items"), KItems, v, d);
    SubLaw(env, Ascii("contains"), KContains, v, d);
    SubLaw(env, Ascii("not"), KNot, v, d);
    SubLaw(env, Ascii("propertyNames"), KPropertyNames, v, d);
  }

  // ---------------------------------------------------------------- combinations

  lemma NotLaw(env: Env, v: Tree, d: Tree)
    requires IsSchema(v)
    ensures Accepts(env, Only(Ascii("not"), v), d) <==> !Accepts(env, v, d)
    ensures Accepts(env, Only(Ascii("propertyNames"), v), d) <==>
            (d.Obj? ==> forall j :: 0 <= j < |d.members| && !d.members[j].keySkip ==> Accepts(env, v, Leaf(false, d.members[j].key)))
  {
    SchemaIs(v);
    hide IsSchema;
    hide Accepts;
    hide Asserts;
    hide KwOf;
    hide ValidSub;
    hide Only;
    SubLaw(env, Ascii("not"), KNot, v, d);
    SubLaw(env, Ascii("propertyNames"), KPropertyNames, v, d);
    hide Ascii;
  }

  /** How many of the entries accept, what is no schema counting as true. */
  function Satisfied(env: Env, items: seq<Tree>, d: Tree): set<nat> {
    set j: nat | j < |items| && (!IsSchema(items[j]) || Accepts(env, items[j], d))
  }

  lemma CombinationLaws(env: Env, v: Tree, d: Tree)
    requires !v.skip && v.Arr?
    ensures var n := |Satisfied(env, v.items, d)|;
            && (Accepts(env, Only(Ascii("allOf"), v), d) <==> n == |v.items|)
            && (Accepts(env, Only(Ascii("anyOf"), v), d) <==> n > 0)
            && (Accepts(env, Only(Ascii("oneOf"), v), d) <==> n == 1)
  {
    hide Accepts;
    hide Asserts;
    hide KwOf;
    hide ValidSub;
    hide Only;
    SubLaw(env, Ascii("allOf"), KAllOf, v, d);
    SubLaw(env, Ascii("anyOf"), KAnyOf, v, d);
    SubLaw(env, Ascii("oneOf"), KOneOf, v, d);
    hide Ascii;
    AllSatisfied(env, v, d);
    AnySatisfied(env, v, d);
    OneSatisfied(env, v, d);
  }

  function Below(n: nat): (r: set<nat>)
    ensures |r| == n && forall j: nat :: j in r <==> j < n
  {
    if n == 0 then {} else Below(n - 1) + {n - 1}
  }

  lemma EntryIn(env: Env, items: seq<Tree>, d: Tree)
    ensures forall j: nat :: j in Satisfied(env, items, d) <==> j < |items| && EntryOk(env, items[j], d)
  {
    hide Accepts;
    hide IsSchema;
    hide ValidSub;
    forall j: nat | j < |items| ensures ValidSub(items[j]) <==> IsSchema(items[j]) {
      SchemaIs(items[j]);
    }
  }

  lemma AllSatisfied(env: Env, v: Tree, d: Tree)
    requires v.Arr?
    ensures AllOk(env, v, d) <==> |Satisfied(env, v.items, d)| == |v.items|
  {
    EntryIn(env, v.items, d);
    hide EntryOk;
    hide Satisfied;
    hide Below;
    var all := Below(|v.items|);
    var s := Satisfied(env, v.items, d);
    if AllOk(env, v, d) {
      assert s == all;
    }
    if |s| == |v.items| {
      assert s <= all;
      SubsetFull(s, all);
      forall j | 0 <= j < |v.items| ensures EntryOk(env, v.items[j], d) {
        assert j in all;
      }
    }
  }

  lemma SubsetFull(s: set<nat>, t: set<nat>)
    requires s <= t && |s| == |t|
    ensures s == t
  {
    var rest := t - s;
    assert t == s + rest && |t| == |s| + |rest|;
  }

  lemma AnySatisfied(env: Env, v: Tree, d: Tree)
    requires v.Arr?
    ensures AnyOk(env, v, d) <==> |Satisfied(env, v.items, d)| > 0
  {
    EntryIn(env, v.items, d);
    hide EntryOk;
    hide Satisfied;
    var s := Satisfied(env, v.items, d);
    if j :| 0 <= j < |v.items| && EntryOk(env, v.items[j], d) {
      assert j in s;
    }
    if |s| > 0 {
      var j :| j in s;
    }
  }

  lemma OneSatisfied(env: Env, v: Tree, d: Tree)
    requires v.Arr?
    ensures OneOk(env, v, d) <==> |Satisfied(env, v.items, d)| == 1
  {
    hide *;
    var s := Satisfied(env, v.items, d);
    EntryIn(env, v.items, d);
    OneOkMeans(env, v, d);
    if j: nat :| JustEntry(env, v.items, d, j) {
      JustMeans(env, v.items, d, j);
      assert s == {j};
    }
    if |s| == 1 {
      var j :| j in s;
      assert s == {j} by {
        assert |s - {j}| == 0;
      }
      JustMeans(env, v.items, d, j);
    }
  }

  lemma JustMeans(env: Env, items: seq<Tree>, d: Tree, j: nat)
    ensures JustEntry(env, items, d, j) <==>
            && j < |items| && EntryOk(env, items[j], d)
            && forall l :: 0 <= l < |items| && l != j ==> !EntryOk(env, items[l], d)
  {
    hide EntryOk;
  }

  /** The condition chooses the branch; without it neither branch says anything. */
  lemma IfLaw(env: Env, c: Tree, t: Tree, e: Tree, d: Tree)
    requires IsSchema(c) && IsSchema(t) && IsSchema(e)
    ensures var s := Obj(false, [Member(Token(TString, Ascii("if"), false), false, c),
                                 Member(Token(TString, Ascii("then"), false), false, t),
                                 Member(Token(TString, Ascii("else"), false), false, e)]);
            Accepts(env, s, d) <==> if Accepts(env, c, d) then Accepts(env, t, d) else Accepts(env, e, d)
  {
    SchemaIs(c);
    SchemaIs(t);
    SchemaIs(e);
    hide IsSchema;
    hide Accepts;
    hide Asserts;
    hide ValidSub;
    hide TakesOver;
    KeyNames(KIf, Ascii("if"));
    KeyNames(KThen, Ascii("then"));
    KeyNames(KElse, Ascii("else"));
    hide KwOfToken;
    var s := Obj(false, [Member(Token(TString, Ascii("if"), false), false, c),
                         Member(Token(TString, Ascii("then"), false), false, t),
                         Member(Token(TString, Ascii("else"), false), false, e)]);
    hide Ascii;
    IfSchema(env, s, c, t, e, d);
  }

  lemma IfSchema(env: Env, s: Tree, c: Tree, t: Tree, e: Tree, d: Tree)
    requires !s.skip && s.Obj? && |s.members| == 3 && ValidSub(c) && ValidSub(t) && ValidSub(e)
    requires KwOf(s.members[0]) == KIf && KwOf(s.members[1]) == KThen && KwOf(s.members[2]) == KElse
    requires s.members[0].val == c && s.members[1].val == t && s.members[2].val == e
    ensures Accepts(env, s, d) <==> if Accepts(env, c, d) then Accepts(env, t, d) else Accepts(env, e, d)
  {
    hide Asserts;
    hide Accepts;
    hide BranchOk;
    hide ValidSub;
    hide KwOf;
    hide TakesOver;
    assert !Replaced(s.members, 0) && !Replaced(s.members, 1) && !Replaced(s.members, 2);
    AssertsIf(env, s, 0, d);
    AssertsNothing(env, s, 1, d);
    AssertsNothing(env, s, 2, d);
    ThreeAccept(env, s, d);
    OneBranch(env, s, KThen, 1, d);
    OneBranch(env, s, KElse, 2, d);
    hide Accepts;
    hide Replaced;
    hide BranchOk;
  }

  lemma OneBranch(env: Env, s: Tree, branch: Kw, j: nat, d: Tree)
    requires s.Obj? && j < |s.members| && KwOf(s.members[j]) == branch && ValidSub(s.members[j].val) && !Replaced(s.members, j)
    requires forall i :: 0 <= i < |s.members| && i != j ==> KwOf(s.members[i]) != branch
    ensures BranchOk(env, s, branch, d) <==> Accepts(env, s.members[j].val, d)
  {
    hide Accepts;
    hide ValidSub;
    hide KwOf;
    hide Replaced;
  }

  lemma ThreeAccept(env: Env, s: Tree, d: Tree)
    requires !s.skip && s.Obj? && |s.members| == 3
    requires !Replaced(s.members, 0) && !Replaced(s.members, 1) && !Replaced(s.members, 2)
    ensures Accepts(env, s, d) <==> Asserts(env, s, 0, d) && Asserts(env, s, 1, d) && Asserts(env, s, 2, d)
  {
    hide Asserts;
    hide Replaced;
  }

  lemma BranchAlone(env: Env, v: Tree, d: Tree)
    ensures Accepts(env, Only(Ascii("then"), v), d) && Accepts(env, Only(Ascii("else"), v), d)
  {
    hide Accepts;
    hide Asserts;
    hide KwOf;
    OnlyAsserts(env, Ascii("then"), KThen, v, d);
    OnlyAsserts(env, Ascii("else"), KElse, v, d);
    AssertsNothing(env, Only(Ascii("then"), v), 0, d);
    AssertsNothing(env, Only(Ascii("else"), v), 0, d);
  }

  // ---------------------------------------------------------------- objects

  ghost predicate StringKeys(ms: seq<Member>) {
    forall i :: 0 <= i < |ms| ==> ms[i].key.kind == TString
  }

  /** Some member that is no duplicate has this key text. */
  ghost predicate HasMember(d: Tree, text: bytes)
    requires d.Obj?
  {
    exists j :: 0 <= j < |d.members| && !d.members[j].keySkip && KeyText(d.members[j].key) == text
  }

  lemma TextIsKeyText(t: Token)
    requires t.kind == TString
    ensures Text(t) == KeyText(t)
  {
    hide Unescaped;
  }

  lemma HasKeyIs(d: Tree, text: bytes)
    requires d.Obj? && StringKeys(d.members)
    ensures HasKey(d, text) <==> HasMember(d, text)
  {
    hide Text;
    hide KeyText;
    forall j | 0 <= j < |d.members| ensures Text(d.members[j].key) == KeyText(d.members[j].key) {
      TextIsKeyText(d.members[j].key);
    }
  }

  /** `required` wants a member for every name; a name ends at its first NUL. */
  lemma RequiredLaw(env: Env, v: Tree, d: Tree)
    requires !v.skip && v.Arr? && (forall i :: 0 <= i < |v.items| ==> v.items[i].Leaf? && v.items[i].tok.kind == TString)
    requires d.Obj? ==> StringKeys(d.members)
    ensures Accepts(env, Only(Ascii("required"), v), d) <==>
            (d.Obj? ==> forall i :: 0 <= i < |v.items| ==> HasMember(d, CStr(KeyText(v.items[i].tok))))
  {
    hide Accepts;
    hide Asserts;
    hide KwOf;
    hide Only;
    hide CStr;
    hide HasKey;
    hide HasMember;
    hide Text;
    hide KeyText;
    SubLaw(env, Ascii("required"), KRequired, v, d);
    hide Ascii;
    if d.Obj? {
      forall i | 0 <= i < |v.items|
        ensures HasKey(d, CStr(Text(TokenOf(v.items[i])))) <==> HasMember(d, CStr(KeyText(v.items[i].tok)))
      {
        TextIsKeyText(v.items[i].tok);
        HasKeyIs(d, CStr(KeyText(v.items[i].tok)));
      }
    }
  }

  /** The first member with this key text. */
  ghost predicate FirstOf(ms: seq<Member>, p: nat, text: bytes) {
    && p < |ms| && KeyText(ms[p].key) == text
    && forall q :: 0 <= q < p ==> KeyText(ms[q].key) != text
  }

  /** The named property, if there is one, accepts the member. */
  ghost predicate PropertyTakes(env: Env, ps: seq<Member>, m: Member) {
    forall p: nat :: FirstOf(ps, p, KeyText(m.key)) ==> Accepts(env, ps[p].val, m.val)
  }

  /** Every matching pattern accepts the member, and every pattern compiles. */
  ghost predicate PatternsTake(env: Env, qs: seq<Member>, m: Member) {
    forall q :: 0 <= q < |qs| ==> PatternTakes(env, qs[q], m)
  }

  ghost predicate PatternTakes(env: Env, q: Member, m: Member) {
    match env.regex(CStr(KeyText(q.key)), CStr(KeyText(m.key)))
    case Match => Accepts(env, q.val, m.val)
    case NoMatch => true
    case NoCompile => false
  }

  /** Some property has the member's name, or some pattern matches it. */
  ghost predicate Mentioned(env: Env, ps: seq<Member>, qs: seq<Member>, m: Member) {
    || (exists p :: 0 <= p < |ps| && KeyText(ps[p].key) == KeyText(m.key))
    || (exists q :: 0 <= q < |qs| && env.regex(CStr(KeyText(qs[q].key)), CStr(KeyText(m.key))) == Match)
  }

  lemma PropertyIs(env: Env, v: Tree, m: Member)
    requires v.Obj? && StringKeys(v.members) && m.key.kind == TString
    ensures PropertyOk(env, v, m.key, m.val) <==> PropertyTakes(env, v.members, m)
    ensures FirstNamed(v.members, Text(m.key)) < |v.members| <==>
            exists p :: 0 <= p < |v.members| && KeyText(v.members[p].key) == KeyText(m.key)
  {
    hide Accepts;
    hide Text;
    hide KeyText;
    hide FirstNamed;
    var ps := v.members;
    TextIsKeyText(m.key);
    forall p | 0 <= p < |ps| ensures Text(ps[p].key) == KeyText(ps[p].key) {
      TextIsKeyText(ps[p].key);
    }
    var f := FirstNamed(ps, Text(m.key));
    if f < |ps| {
      assert FirstOf(ps, f, KeyText(m.key));
    }
    forall p: nat | FirstOf(ps, p, KeyText(m.key)) ensures p == f {
      assert f <= p;
      FirstUnique(ps, f, p, KeyText(m.key));
    }
  }

  lemma FirstUnique(ms: seq<Member>, f: nat, p: nat, text: bytes)
    requires FirstOf(ms, f, text) && FirstOf(ms, p, text)
    ensures f == p
  {
    hide KeyText;
  }

  lemma OnePattern(env: Env, v: Tree, q: nat, m: Member)
    requires v.Obj? && q < |v.members| && v.members[q].key.kind == TString && m.key.kind == TString
    ensures PatternOk(env, v, q, m.key, m.val) <==> PatternTakes(env, v.members[q], m)
    ensures PatternResult(env, v.members[q].key, m.key) == env.regex(CStr(KeyText(v.members[q].key)), CStr(KeyText(m.key)))
  {
    hide Accepts;
    hide Text;
    hide KeyText;
    hide CStr;
    TextIsKeyText(m.key);
    TextIsKeyText(v.members[q].key);
  }

  lemma PatternIs(env: Env, v: Tree, m: Member)
    requires v.Obj? && StringKeys(v.members) && m.key.kind == TString
    ensures AllPatterns(env, v, m) <==> PatternsTake(env, v.members, m)
    ensures forall q :: 0 <= q < |v.members| ==>
              PatternResult(env, v.members[q].key, m.key) == env.regex(CStr(KeyText(v.members[q].key)), CStr(KeyText(m.key)))
  {
    hide PatternOk;
    hide PatternTakes;
    hide PatternResult;
    hide KeyText;
    hide CStr;
    var qs := v.members;
    forall q: nat | q < |qs|
      ensures PatternOk(env, v, q, m.key, m.val) <==> PatternTakes(env, qs[q], m)
      ensures PatternResult(env, qs[q].key, m.key) == env.regex(CStr(KeyText(qs[q].key)), CStr(KeyText(m.key)))
    {
      OnePattern(env, v, q, m);
    }
  }

  /** Every pattern of the schema object lets the member pass. */
  ghost predicate AllPatterns(env: Env, v: Tree, m: Member)
    requires v.Obj?
  {
    forall q: nat :: q < |v.members| ==> PatternOk(env, v, q, m.key, m.val)
  }

  /** The three property keywords together. */
  lemma PropertyLaws(env: Env, p: Tree, q: Tree, a: Tree, d: Tree)
    requires !p.skip && p.Obj? && StringKeys(p.members) && !q.skip && q.Obj? && StringKeys(q.members) && IsSchema(a)
    requires d.Obj? && StringKeys(d.members)
    ensures var s := Obj(false, [Member(Token(TString, Ascii("properties"), false), false, p),
                                 Member(Token(TString, Ascii("patternProperties"), false), false, q),
                                 Member(Token(TString, Ascii("additionalProperties"), false), false, a)]);
            Accepts(env, s, d) <==>
              forall j :: 0 <= j < |d.members| && !d.members[j].keySkip ==>
                && PropertyTakes(env, p.members, d.members[j])
                && PatternsTake(env, q.members, d.members[j])
                && (!Mentioned(env, p.members, q.members, d.members[j]) ==> Accepts(env, a, d.members[j].val))
  {
    SchemaIs(a);
    hide IsSchema;
    hide Accepts;
    hide Asserts;
    hide ValidSub;
    hide TakesOver;
    hide StringKeys;
    hide PropertyTakes;
    hide PatternsTake;
    hide Mentioned;
    PropertiesKey();
    PatternsKey();
    AdditionalKey();
    hide KwOfToken;
    hide Ascii;
    var s := Obj(false, [Member(Token(TString, Ascii("properties"), false), false, p),
                         Member(Token(TString, Ascii("patternProperties"), false), false, q),
                         Member(Token(TString, Ascii("additionalProperties"), false), false, a)]);
    PropertySchema(env, s, p, q, a, d);
  }

  lemma PropertiesKey()
    ensures KwOfToken(Token(TString, Ascii("properties"), false)) == KProperties
  {
    hide KwOfToken;
    KeyNames(KProperties, Ascii("properties"));
  }

  lemma PatternsKey()
    ensures KwOfToken(Token(TString, Ascii("patternProperties"), false)) == KPatternProperties
  {
    hide KwOfToken;
    KeyNames(KPatternProperties, Ascii("patternProperties"));
  }

  lemma AdditionalKey()
    ensures KwOfToken(Token(TString, Ascii("additionalProperties"), false)) == KAdditionalProperties
  {
    hide KwOfToken;
    KeyNames(KAdditionalProperties, Ascii("additionalProperties"));
  }

  lemma PropertySchema(env: Env, s: Tree, p: Tree, q: Tree, a: Tree, d: Tree)
    requires !p.skip && p.Obj? && StringKeys(p.members) && !q.skip && q.Obj? && StringKeys(q.members) && ValidSub(a)
    requires d.Obj? && StringKeys(d.members) && !s.skip && s.Obj? && |s.members| == 3
    requires KwOf(s.members[0]) == KProperties && KwOf(s.members[1]) == KPatternProperties && KwOf(s.members[2]) == KAdditionalProperties
    requires s.members[0].val == p && s.members[1].val == q && s.members[2].val == a
    ensures Accepts(env, s, d) <==>
              forall j :: 0 <= j < |d.members| && !d.members[j].keySkip ==>
                && PropertyTakes(env, p.members, d.members[j])
                && PatternsTake(env, q.members, d.members[j])
                && (!Mentioned(env, p.members, q.members, d.members[j]) ==> Accepts(env, a, d.members[j].val))
  {
    hide *;
    NotReplaced(s.members);
    ThreeAccept(env, s, d);
    AssertsProperties(env, s, 0, d);
    AssertsPatterns(env, s, 1, d);
    AssertsAdditional(env, s, 2, d);
    ObjectIs(p);
    ObjectIs(q);
    PropertiesAre(env, p, d);
    PatternsAre(env, q, d);
    AdditionalAre(env, s, p, q, a, d);
  }

  lemma NotReplaced(ms: seq<Member>)
    requires |ms| == 3 && KwOf(ms[0]) != KwOf(ms[1]) && KwOf(ms[0]) != KwOf(ms[2]) && KwOf(ms[1]) != KwOf(ms[2])
    ensures !Replaced(ms, 0) && !Replaced(ms, 1) && !Replaced(ms, 2)
  {
    hide KwOf;
    hide TakesOver;
  }

  lemma ObjectIs(v: Tree)
    requires !v.skip && v.Obj?
    ensures IsObject(v)
  {
  }

  lemma KeyIsString(ms: seq<Member>, j: nat)
    requires StringKeys(ms) && j < |ms|
    ensures ms[j].key.kind == TString
  {
  }

  lemma PropertiesAre(env: Env, p: Tree, d: Tree)
    requires p.Obj? && StringKeys(p.members) && d.Obj? && StringKeys(d.members)
    ensures PropertiesOk(env, p, d) <==>
            forall j :: 0 <= j < |d.members| && !d.members[j].keySkip ==> PropertyTakes(env, p.members, d.members[j])
  {
    hide PropertyOk;
    hide PropertyTakes;
    hide StringKeys;
    forall j | 0 <= j < |d.members|
      ensures PropertyOk(env, p, d.members[j].key, d.members[j].val) <==> PropertyTakes(env, p.members, d.members[j])
    {
      KeyIsString(d.members, j);
      PropertyIs(env, p, d.members[j]);
    }
  }

  lemma PatternsAre(env: Env, q: Tree, d: Tree)
    requires q.Obj? && StringKeys(q.members) && d.Obj? && StringKeys(d.members)
    ensures PatternsOk(env, q, d) <==>
            forall j :: 0 <= j < |d.members| && !d.members[j].keySkip ==> PatternsTake(env, q.members, d.members[j])
  {
    hide PatternOk;
    hide PatternsTake;
    hide StringKeys;
    forall j | 0 <= j < |d.members| ensures AllPatterns(env, q, d.members[j]) <==> PatternsTake(env, q.members, d.members[j]) {
      KeyIsString(d.members, j);
      PatternIs(env, q, d.members[j]);
    }
  }

  lemma AdditionalAre(env: Env, s: Tree, p: Tree, q: Tree, a: Tree, d: Tree)
    requires !p.skip && p.Obj? && StringKeys(p.members) && !q.skip && q.Obj? && StringKeys(q.members)
    requires d.Obj? && StringKeys(d.members) && s.Obj? && |s.members| == 3
    requires KwOf(s.members[0]) == KProperties && KwOf(s.members[1]) == KPatternProperties && KwOf(s.members[2]) == KAdditionalProperties
    requires s.members[0].val == p && s.members[1].val == q
    ensures AdditionalOk(env, s.members, a, d) <==>
            forall j :: 0 <= j < |d.members| && !d.members[j].keySkip && !Mentioned(env, p.members, q.members, d.members[j])
              ==> Accepts(env, a, d.members[j].val)
  {
    hide Covered;
    hide Mentioned;
    hide Accepts;
    hide StringKeys;
    hide KwOf;
    forall j | 0 <= j < |d.members|
      ensures Covered(env, s.members, d.members[j].key) <==> Mentioned(env, p.members, q.members, d.members[j])
    {
      KeyIsString(d.members, j);
      CoveredIs(env, s, p, q, d.members[j]);
    }
  }

  lemma CoveredIs(env: Env, s: Tree, p: Tree, q: Tree, m: Member)
    requires !p.skip && p.Obj? && StringKeys(p.members) && !q.skip && q.Obj? && StringKeys(q.members) && m.key.kind == TString
    requires s.Obj? && |s.members| == 3
    requires KwOf(s.members[0]) == KProperties && KwOf(s.members[1]) == KPatternProperties && KwOf(s.members[2]) == KAdditionalProperties
    requires s.members[0].val == p && s.members[1].val == q
    ensures Covered(env, s.members, m.key) <==> Mentioned(env, p.members, q.members, m)
  {
    hide *;
    NotReplaced(s.members);
    PropertyIs(env, p, m);
    PatternIs(env, q, m);
    CoverCases(env, s.members[0], m.key);
    CoverCases(env, s.members[1], m.key);
    CoverCases(env, s.members[2], m.key);
    ObjectIs(p);
    ObjectIs(q);
    ThreeCovered(env, s.members, m.key);
    MentionedIs(env, p, q, m);
  }

  lemma CoverCases(env: Env, m: Member, key: Token)
    ensures KwOf(m) == KProperties && IsObject(m.val) ==>
              m.val.Obj? && (CoveredBy(env, m, key) <==> FirstNamed(m.val.members, Text(key)) < |m.val.members|)
    ensures KwOf(m) == KPatternProperties && IsObject(m.val) ==>
              m.val.Obj? && (CoveredBy(env, m, key) <==> exists r :: 0 <= r < |m.val.members| && PatternResult(env, m.val.members[r].key, key) == Match)
    ensures KwOf(m) != KProperties && KwOf(m) != KPatternProperties ==> !CoveredBy(env, m, key)
  {
    hide KwOf;
    hide FirstNamed;
    hide PatternResult;
    hide Text;
  }

  lemma ThreeCovered(env: Env, ms: seq<Member>, key: Token)
    requires |ms| == 3 && !Replaced(ms, 0) && !Replaced(ms, 1) && !Replaced(ms, 2)
    ensures Covered(env, ms, key) <==> CoveredBy(env, ms[0], key) || CoveredBy(env, ms[1], key) || CoveredBy(env, ms[2], key)
  {
    hide Replaced;
    hide CoveredBy;
  }

  lemma MentionedIs(env: Env, p: Tree, q: Tree, m: Member)
    requires p.Obj? && q.Obj?
    requires forall r :: 0 <= r < |q.members| ==>
               PatternResult(env, q.members[r].key, m.key) == env.regex(CStr(KeyText(q.members[r].key)), CStr(KeyText(m.key)))
    ensures Mentioned(env, p.members, q.members, m) <==>
            || (exists i :: 0 <= i < |p.members| && KeyText(p.members[i].key) == KeyText(m.key))
            || (exists r :: 0 <= r < |q.members| && PatternResult(env, q.members[r].key, m.key) == Match)
  {
    hide PatternResult;
    hide KeyText;
    hide CStr;
  }

  // ---------------------------------------------------------------- everything else

  predicate IsLimitText(raw: bytes) {
    raw == Ascii("minimum") || raw == Ascii("maximum") || raw == Ascii("multipleOf") || raw == Ascii("exclusiveMinimum")
    || raw == Ascii("exclusiveMaximum")
  }

  predicate IsCountText(raw: bytes) {
    raw == Ascii("minProperties") || raw == Ascii("maxProperties") || raw == Ascii("minLength") || raw == Ascii("maxLength")
    || raw == Ascii("minItems") || raw == Ascii("maxItems")
  }

  predicate IsPlainText(raw: bytes) {
    raw == Ascii("type") || raw == Ascii("uniqueItems") || raw == Ascii("pattern") || raw == Ascii("format")
    || raw == Ascii("required")
  }

  predicate IsSchemaText(raw: bytes) {
    raw == Ascii("items") || raw == Ascii("contains") || raw == Ascii("not") || raw == Ascii("propertyNames")
    || raw == Ascii("if") || raw == Ascii("then") || raw == Ascii("else")
  }

  predicate IsGroupText(raw: bytes) {
    raw == Ascii("allOf") || raw == Ascii("anyOf") || raw == Ascii("oneOf") || raw == Ascii("properties")
    || raw == Ascii("patternProperties") || raw == Ascii("additionalProperties")
  }

  /** The 29 spellings. */
  predicate IsKeywordText(raw: bytes) {
    IsLimitText(raw) || IsCountText(raw) || IsPlainText(raw) || IsSchemaText(raw) || IsGroupText(raw)
  }

  lemma SpelledIsKeyword(raw: bytes, k: Kw)
    requires k != KUnknown && Spells(raw, Name(k))
    ensures IsKeywordText(raw)
  {
    match k {
      case KType => assert raw == Ascii("type");
      case KMinimum => assert raw == Ascii("minimum");
      case KMaximum => assert raw == Ascii("maximum");
      case KMultipleOf => assert raw == Ascii("multipleOf");
      case KExclusiveMinimum => assert raw == Ascii("exclusiveMinimum");
      case KExclusiveMaximum => assert raw == Ascii("exclusiveMaximum");
      case KMinProperties => assert raw == Ascii("minProperties");
      case KMaxProperties => assert raw == Ascii("maxProperties");
      case KUniqueItems => assert raw == Ascii("uniqueItems");
      case KMinLength => assert raw == Ascii("minLength");
      case KMaxLength => assert raw == Ascii("maxLength");
      case KMinItems => assert raw == Ascii("minItems");
      case KMaxItems => assert raw == Ascii("maxItems");
      case KItems => assert raw == Ascii("items");
      case KContains => assert raw == Ascii("contains");
      case KNot => assert raw == Ascii("not");
      case KPropertyNames => assert raw == Ascii("propertyNames");
      case KPattern => assert raw == Ascii("pattern");
      case KFormat => assert raw == Ascii("format");
      case KAllOf => assert raw == Ascii("allOf");
      case KAnyOf => assert raw == Ascii("anyOf");
      case KOneOf => assert raw == Ascii("oneOf");
      case KIf => assert raw == Ascii("if");
      case KThen => assert raw == Ascii("then");
      case KElse => assert raw == Ascii("else");
      case KRequired => assert raw == Ascii("required");
      case KProperties => assert raw == Ascii("properties");
      case KPatternProperties => assert raw == Ascii("patternProperties");
      case KAdditionalProperties => assert raw == Ascii("additionalProperties");
    }
  }

  lemma UnknownKey(t: Token)
    requires t.kind == TString ==> !IsKeywordText(t.raw)
    ensures KwOfToken(t) == KUnknown
  {
    hide IsKeywordText;
    hide KeywordTable;
    hide Name;
    hide Spells;
    if t.kind == TString {
      LookupSpelled(t.raw, KeywordTable());
      if LookupIn(t.raw, KeywordTable()) != KUnknown {
        SpelledIsKeyword(t.raw, LookupIn(t.raw, KeywordTable()));
      }
    }
  }

  /** A schema without any of the keywords accepts everything. */
  lemma NoKeywordAccepts(env: Env, s: Tree, d: Tree)
    requires s.Obj? && forall i :: 0 <= i < |s.members| && s.members[i].key.kind == TString ==> !IsKeywordText(s.members[i].key.raw)
    ensures Accepts(env, s, d)
  {
    hide Asserts;
    hide IsKeywordText;
    hide KwOfToken;
    hide Replaced;
    forall i | 0 <= i < |s.members| ensures Asserts(env, s, i, d) {
      UnknownKey(s.members[i].key);
      AssertsNothing(env, s, i, d);
    }
  }

  /** So do true and what is no schema; false accepts nothing. */
  lemma PlainSchemas(env: Env, v: Tree, d: Tree)
    ensures !v.skip && v.Leaf? && v.tok.kind == TFalse ==> !Accepts(env, v, d)
    ensures !v.skip && v.Leaf? && v.tok.kind != TFalse ==> Accepts(env, v, d)
    ensures !v.skip && v.Arr? ==> Accepts(env, v, d)
  {
    hide Asserts;
  }
}
