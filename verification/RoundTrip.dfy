/** Writing a value, parsing the text and converting the pool gives the value back with the
    keys of every object in byte order (src/shape/serialize.c, src/parser/parser.c). */
module RoundTrip {
  import opened Bytes
  import opened Ast
  import opened Unescape
  import opened Keywords
  import opened Lexing
  import opened Grammar
  import opened KeyTree
  import opened KeySet
  import opened ScopedKeys
  import opened Building
  import opened PoolShape
  import opened PoolBuilt
  import opened KeyForest
  import opened KeyOrder
  import opened Parsing
  import opened Parser
  import TextTokens
  import opened Frontend
  import opened Prescan
  import opened Values
  import opened Heap
  import opened Strings
  import opened Json
  import opened JsonText
  import opened Numerals
  import opened Serializer
  import opened PoolSizes
  import opened Meaning
  import opened Convert
  import opened Canonical

  // ---------------------------------------------------------------- numerals

  lemma {:induction false} DecimalDigits(n: nat)
    ensures DigitsValue(Decimal(n)) == n && !IsFloat(Decimal(n)) && Decimal(n)[0] != 45
    decreases n
  {
    var d := Decimal(n);
    if n < 10 {
      assert d[..0] == [];
      assert DigitsValue([]) == 0;
    } else {
      DecimalDigits(n / 10);
      assert d[..|d| - 1] == Decimal(n / 10);
    }
  }

  function Power(k: nat): nat { if k == 0 then 1 else 10 * Power(k - 1) }

  lemma {:induction false} DecimalShort(n: nat, k: nat)
    requires k >= 1 && n < Power(k)
    ensures |Decimal(n)| <= k
    decreases k
  {
    assert Power(1) == 10 * Power(0);
    if n >= 10 {
      DecimalShort(n / 10, k - 1);
    }
  }

  lemma PowerValues()
    ensures Power(19) > 0x8000_0000_0000_0000
  {
    assert Power(1) == 10 * Power(0);
    assert Power(2) == 10 * Power(1);
    assert Power(3) == 10 * Power(2);
    assert Power(4) == 10 * Power(3);
    assert Power(5) == 10 * Power(4);
    assert Power(6) == 10 * Power(5);
    assert Power(7) == 10 * Power(6);
    assert Power(8) == 10 * Power(7);
    assert Power(9) == 10 * Power(8);
    assert Power(10) == 10 * Power(9);
    assert Power(11) == 10 * Power(10);
    assert Power(12) == 10 * Power(11);
    assert Power(13) == 10 * Power(12);
    assert Power(14) == 10 * Power(13);
    assert Power(15) == 10 * Power(14);
    assert Power(16) == 10 * Power(15);
    assert Power(17) == 10 * Power(16);
    assert Power(18) == 10 * Power(17);
    assert Power(19) == 10 * Power(18);
  }

  /** Reading a written integer gives the integer. */
  lemma IntegerBack(i: int64)
    ensures IntegerOf(PrintInt(i)) == i && !IsFloat(PrintInt(i)) && |PrintInt(i)| < BUFFER
  {
    hide Decimal;
    hide DigitsValue;
    hide Power;
    var x: int := i;
    var n: nat := if x < 0 then 0 - x else x;
    PowerValues();
    DecimalDigits(n);
    DecimalShort(n, 19);
    if x < 0 {
      assert PrintInt(i)[1..] == Decimal(n);
      SignNoFloat(Decimal(n));
    }
  }

  lemma SignNoFloat(s: bytes)
    requires !IsFloat(s)
    ensures !IsFloat([45] + s)
  {
  }

  lemma NumberBack(strtod: bytes -> Bits, i: int64)
    ensures LeafValue(strtod, Token(TNumber, PrintInt(i), false)) == VInt(i)
  {
    hide PrintInt;
    hide IntegerOf;
    hide IsFloat;
    IntegerBack(i);
  }

  /** Only a fraction has a point, and only an exponent a letter. */
  lemma FloatExact(raw: bytes)
    requires IsNumeral(raw)
    ensures IsFloat(raw) <==> Fractional(raw)
  {
    if Fractional(raw) {
      var a: nat, b: nat, c: nat :| SplitAt(raw, 0, a, b, c, |raw|) && (b < c || c < |raw|);
      Leads(raw, 0, a, b, c, |raw|);
      assert raw[if b < c then b else c] in raw;
    } else {
      var a: nat, b: nat, c: nat :| SplitAt(raw, 0, a, b, c, |raw|);
      Leads(raw, 0, a, b, c, |raw|);
      assert b == |raw|;
    }
  }

  /** What a numeral is read as: with a fraction or an exponent the double `strtod` finds,
      otherwise the integer if it has 64 bits; 128 bytes or more are always kept as text. */
  lemma NumeralMeans(strtod: bytes -> Bits, raw: bytes, esc: bool)
    requires IsNumeral(raw)
    ensures var v := LeafValue(strtod, Token(TNumber, raw, esc));
            && (|raw| < 128 && Fractional(raw) ==> v == VDouble(strtod(raw)))
            && (|raw| >= 128 ==> v == VBignum(Some(raw)))
            && (!Fractional(raw) && |raw| < 128 ==>
                  if -9223372036854775808 <= IntegerOf(raw) <= 9223372036854775807 then v == VInt(IntegerOf(raw)) else v == VBignum(Some(raw)))
  {
    hide IsFloat;
    hide IntegerOf;
    hide Fractional;
    FloatExact(raw);
  }

  // ---------------------------------------------------------------- the text

  lemma PrintStarts(fl: Floats, j: J)
    requires Writable(fl, j)
    ensures Print(fl, j) != [] && Print(fl, j)[0] < 0x80
  {
    hide Decimal;
    hide EscBody;
    hide PrintItems;
    hide PrintFields;
    hide IsUtf8;
    if j.JNum? || j.JBig? {
      var raw := if j.JNum? then fl.text(j.d) else j.digits;
      NumeralStarts(raw, 0, |raw|);
    }
    if j.JInt? {
      var x: int := j.i;
      assert Decimal(if x < 0 then 0 - x else x)[0] <= 57;
    }
  }

  /** The written text spells exactly the value's tree. */
  lemma TextOfPrint(fl: Floats, j: J)
    requires Writable(fl, j)
    ensures IsTextOf(Print(fl, j), TreeOf(fl, j))
  {
    hide Print;
    hide Tokens;
    hide Spell;
    hide TreeOf;
    hide Doc;
    hide Writable;
    hide IsTextOf;
    var s := Print(fl, j);
    PrintStarts(fl, j);
    assert s[0..0 + |s|] == s;
    TreeOfDoc(fl, j);
    PrintRead(fl, s, 0, j);
    TextTokens.EndTokens(s);
    assert Spell(TreeOf(fl, j)) + [] == Spell(TreeOf(fl, j));
    TextSpelled(s, TreeOf(fl, j));
  }

  // ---------------------------------------------------------------- duplicate-free values

  /** What is read as a double is finite. */
  predicate ReadsFinite(fl: Floats, strtod: bytes -> Bits, raw: bytes) {
    var v := NumberValue(strtod, raw);
    v.VDouble? ==> fl.finite(v.d)
  }

  /** Keys are distinct and, like strings, without NUL; objects are not too large, and no
      numeral is too large for a double. */
  predicate Restorable(fl: Floats, strtod: bytes -> Bits, j: J)
    decreases j
  {
    match j
    case JNum(d) => ReadsFinite(fl, strtod, fl.text(d))
    case JBig(x) => ReadsFinite(fl, strtod, x)
    case JStr(s) => 0 !in s
    case JArr(items) => forall i :: 0 <= i < |items| ==> Restorable(fl, strtod, items[i])
    case JObj(fields) =>
      && |fields| <= MAX_OBJ_KEYS
      && (forall i, k :: 0 <= i < k < |fields| ==> fields[i].key != fields[k].key)
      && forall i :: 0 <= i < |fields| ==> RestorableField(fl, strtod, fields[i])
    case _ => true
  }

  predicate RestorableField(fl: Floats, strtod: bytes -> Bits, f: Field)
    decreases f
  {
    0 !in f.key && (assert f.val < f; Restorable(fl, strtod, f.val))
  }

  lemma TreesAre(fl: Floats, items: seq<J>, i: nat)
    requires i < |items|
    ensures TreesOf(fl, items)[i] == TreeOf(fl, items[i])
  {
    hide *;
    TreesOfDoc(fl, items, i);
  }

  lemma MembersAre(fl: Floats, fields: seq<Field>, i: nat)
    requires i < |fields|
    ensures MembersOf(fl, fields)[i].key == StringToken(fields[i].key) && !MembersOf(fl, fields)[i].keySkip
    ensures MembersOf(fl, fields)[i].val == TreeOf(fl, fields[i].val) && KeyText(MembersOf(fl, fields)[i].key) == fields[i].key
  {
    hide StringToken;
    hide KeyText;
    hide TreeOf;
    hide MembersOf;
    MembersOfDoc(fl, fields, i);
    StringTokenText(fields[i].key);
    assert fields[i].val < fields[i];
  }

  /** Nothing is marked where no key occurs twice. */
  lemma {:induction false} NothingMarked(fl: Floats, strtod: bytes -> Bits, at: nat, j: J)
    requires Restorable(fl, strtod, j)
    ensures Marked(at, TreeOf(fl, j), false) == TreeOf(fl, j)
    decreases j, 2
  {
    hide MarkedItems;
    hide MarkedMembers;
    hide TreesOf;
    hide MembersOf;
    hide PrintInt;
    hide EscBody;
    match j {
      case JArr(items) =>
        ItemsUnmarked(fl, strtod, at + 1, items, |items|);
        assert TreesOf(fl, items)[|items| - |items|..] == TreesOf(fl, items);
      case JObj(fields) =>
        TextsDiffer(fl, fields);
        MembersUnmarked(fl, strtod, at, at + 1, fields, |fields|, {});
        assert Last(MembersOf(fl, fields), |fields|) == MembersOf(fl, fields);
      case _ =>
    }
  }

  lemma {:induction false} ItemsUnmarked(fl: Floats, strtod: bytes -> Bits, pos: nat, items: seq<J>, n: nat)
    requires n <= |items| && forall i :: 0 <= i < |items| ==> Restorable(fl, strtod, items[i])
    ensures var rest := TreesOf(fl, items)[|items| - n..]; MarkedItems(pos, rest) == rest
    decreases items, 1, n
  {
    hide Restorable;
    hide Marked;
    hide TreesOf;
    hide Len;
    var rest := TreesOf(fl, items)[|items| - n..];
    if n > 0 {
      var i := |items| - n;
      TreesAre(fl, items, i);
      NothingMarked(fl, strtod, pos, items[i]);
      ItemsUnmarked(fl, strtod, pos + Len(rest[0]), items, n - 1);
      assert rest[1..] == TreesOf(fl, items)[|items| - (n - 1)..];
      assert rest == [rest[0]] + rest[1..];
    }
  }

  ghost predicate TextsDistinct(ms: seq<Member>) {
    forall i, k :: 0 <= i < k < |ms| ==> KeyText(ms[i].key) != KeyText(ms[k].key)
  }

  lemma TextsDiffer(fl: Floats, fields: seq<Field>)
    requires forall i, k :: 0 <= i < k < |fields| ==> fields[i].key != fields[k].key
    ensures TextsDistinct(MembersOf(fl, fields))
  {
    hide KeyText;
    hide MembersOf;
    hide StringToken;
    var ms := MembersOf(fl, fields);
    forall i, k | 0 <= i < k < |ms| ensures KeyText(ms[i].key) != KeyText(ms[k].key) {
      MembersAre(fl, fields, i);
      MembersAre(fl, fields, k);
    }
  }

  /** The tail of the members that has `n` of them. */
  function Last(ms: seq<Member>, n: nat): seq<Member>
    requires n <= |ms|
  {
    ms[|ms| - n..]
  }

  lemma LastCons(ms: seq<Member>, n: nat)
    requires 0 < n <= |ms|
    ensures Last(ms, n) == [ms[|ms| - n]] + Last(ms, n - 1)
  {
  }

  lemma UnmarkedCons(parent: nat, pos: nat, m: Member, rest: seq<Member>, seen: set<bytes>)
    requires !m.keySkip && KeyText(m.key) !in seen && Marked(pos + 1, m.val, false) == m.val
    requires MarkedMembers(parent, pos + 1 + Len(m.val), rest, seen + {KeyText(m.key)}) == rest
    ensures MarkedMembers(parent, pos, [m] + rest, seen) == [m] + rest
  {
    hide Marked;
    hide Len;
    hide KeyText;
    hide Scoped;
    MembersForms(parent, pos, m, rest, seen);
  }

  lemma {:induction false} MembersUnmarked(fl: Floats, strtod: bytes -> Bits, parent: nat, pos: nat, fields: seq<Field>, n: nat, seen: set<bytes>)
    requires n <= |fields| && (forall i :: 0 <= i < |fields| ==> RestorableField(fl, strtod, fields[i])) && TextsDistinct(MembersOf(fl, fields))
    requires forall i :: |fields| - n <= i < |fields| ==> KeyText(MembersOf(fl, fields)[i].key) !in seen
    ensures MarkedMembers(parent, pos, Last(MembersOf(fl, fields), n), seen) == Last(MembersOf(fl, fields), n)
    decreases fields, 1, n
  {
    hide *;
    if n == 0 {
      NoneUnmarked(parent, pos, MembersOf(fl, fields), seen);
    } else {
      var i := |fields| - n;
      var m := MembersOf(fl, fields)[i];
      MembersAre(fl, fields, i);
      PlainParts(fl, strtod, fields[i]);
      assert fields[i].val < fields[i];
      NothingMarked(fl, strtod, pos + 1, fields[i].val);
      LaterDiffer(MembersOf(fl, fields), i);
      LastCons(MembersOf(fl, fields), n);
      MembersUnmarked(fl, strtod, parent, pos + 1 + Len(m.val), fields, n - 1, seen + {KeyText(m.key)});
      UnmarkedCons(parent, pos, m, Last(MembersOf(fl, fields), n - 1), seen);
    }
  }

  lemma LaterDiffer(ms: seq<Member>, i: nat)
    requires TextsDistinct(ms) && i < |ms|
    ensures forall k :: i < k < |ms| ==> KeyText(ms[k].key) != KeyText(ms[i].key)
  {
    hide KeyText;
  }

  lemma PlainParts(fl: Floats, strtod: bytes -> Bits, f: Field)
    requires RestorableField(fl, strtod, f)
    ensures Restorable(fl, strtod, f.val)
  {
    hide Restorable;
    assert f.val < f;
  }

  lemma NoneUnmarked(parent: nat, pos: nat, ms: seq<Member>, seen: set<bytes>)
    ensures MarkedMembers(parent, pos, Last(ms, 0), seen) == Last(ms, 0)
  {
  }

  // ---------------------------------------------------------------- the pool can be converted

  lemma {:induction false} OwnKeysCount(parent: nat, pos: nat, ms: seq<Member>)
    ensures |OwnKeys(parent, pos, ms)| <= |ms|
    ensures (forall i :: 0 <= i < |ms| ==> StoredKey(parent, ms[i])) ==> |OwnKeys(parent, pos, ms)| == |ms|
    decreases |ms|
  {
    hide StoredKey;
    hide Len;
    if ms != [] {
      var next := pos + 1 + Len(ms[0].val);
      OwnKeysCount(parent, next, ms[1..]);
      OwnKeysAre(parent, next, ms[1..], pos);
      assert pos !in OwnKeys(parent, next, ms[1..]);
    }
  }

  lemma {:induction false} FitMember(parent: nat, pos: nat, ms: seq<Member>, k: nat)
    requires KeysFitMembers(MAX_STORED_LEN, parent, pos, ms) && k < |ms|
    ensures |Scoped(parent, KeyText(ms[k].key))| <= MAX_STORED_LEN && KeysFit(MAX_STORED_LEN, KeyPos(pos, ms, k) + 1, ms[k].val)
    decreases k
  {
    hide KeyText;
    hide Scoped;
    hide KeysFit;
    hide Len;
    assert ms[0].val < ms[0];
    if k > 0 {
      FitMember(parent, pos + 1 + Len(ms[0].val), ms[1..], k - 1);
    }
  }

  lemma {:induction false} FitItem(pos: nat, items: seq<Tree>, k: nat)
    requires KeysFitItems(MAX_STORED_LEN, pos, items) && k < |items|
    ensures KeysFit(MAX_STORED_LEN, ItemPos(pos, items, k), items[k])
    decreases k
  {
    hide KeysFit;
    hide Len;
    if k > 0 {
      FitItem(pos + Len(items[0]), items[1..], k - 1);
    }
  }

  /** An object of the written value: its sorted keys are all its keys, once each. */
  ghost predicate AllListed(pool: seq<Node>, tree: seq<KeyNode>, at: nat, ms: seq<Member>) {
    && at < |pool|
    && var list := InOrder(tree, pool[at].keyTreeRoot);
       && |list| == |ms| && ByText(pool, list)
       && forall i :: 0 <= i < |list| ==> Names(pool, at + 1, ms, list[i])
  }

  /** `p` is the key node of a member that is not skipped, and its text is the member's. */
  ghost predicate Names(pool: seq<Node>, pos: nat, ms: seq<Member>, p: nat) {
    && 0 !in TextAt(pool, p)
    && var m := MemberIdx(pos, ms, p);
       m.Some? && !ms[m.value].keySkip && TextAt(pool, p) == KeyText(ms[m.value].key)
  }

  /** Keys in order whose texts differ are in strict byte order. */
  lemma DifferentTexts(pool: seq<Node>, list: seq<nat>)
    requires Strict(pool, list) && forall i, k :: 0 <= i < k < |list| && list[i] != list[k] ==> TextAt(pool, list[i]) != TextAt(pool, list[k])
    ensures ByText(pool, list)
  {
    hide TextAt;
    hide Less;
    forall i, k | 0 <= i < k < |list| ensures Less(TextAt(pool, list[i]), TextAt(pool, list[k])) {
      assert Precedes(pool, list[i], list[k]);
    }
  }

  /** Different key nodes of the written object have different texts. */
  lemma NamesDiffer(pool: seq<Node>, at: nat, ms: seq<Member>, p: nat, q: nat)
    requires TextsDistinct(ms) && Names(pool, at + 1, ms, p) && Names(pool, at + 1, ms, q) && p != q
    ensures TextAt(pool, p) != TextAt(pool, q)
  {
    hide KeyText;
    hide TextAt;
    hide KeyPos;
    hide MemberIdx;
    var m, n := MemberIdx(at + 1, ms, p).value, MemberIdx(at + 1, ms, q).value;
    assert m != n;
  }

  lemma ObjectListed(fl: Floats, pool: seq<Node>, tree: seq<KeyNode>, at: nat, fields: seq<Field>)
    requires SortedObject(pool, tree, at, MembersOf(fl, fields)) && MembersAt(pool, at + 1, MembersOf(fl, fields))
    requires KeysFitMembers(MAX_STORED_LEN, at, at + 1, MembersOf(fl, fields)) && forall i :: 0 <= i < |fields| ==> 0 !in fields[i].key
    requires TextsDistinct(MembersOf(fl, fields))
    ensures AllListed(pool, tree, at, MembersOf(fl, fields))
  {
    hide InOrder;
    hide OwnKeys;
    hide KeyText;
    hide Scoped;
    hide MembersOf;
    hide MemberIdx;
    hide KeysFitMembers;
    hide MembersAt;
    hide Strict;
    hide ByText;
    hide At;
    hide StringToken;
    hide TextAt;
    hide TextsDistinct;
    var ms := MembersOf(fl, fields);
    var list := InOrder(tree, pool[at].keyTreeRoot);
    forall i | 0 <= i < |ms| ensures StoredKey(at, ms[i]) {
      FitMember(at, at + 1, ms, i);
      MembersAre(fl, fields, i);
    }
    forall p | p in list ensures Names(pool, at + 1, ms, p) {
      OwnKeysAre(at, at + 1, ms, p);
      var m := MemberIdx(at + 1, ms, p).value;
      Convert.MemberAt(pool, at + 1, ms, m);
      MembersAre(fl, fields, m);
      TextIs(pool, p);
    }
    assert NulFree(pool, list);
    OwnKeysCount(at, at + 1, ms);
    StrictCount(pool, list, OwnKeys(at, at + 1, ms));
    assert |list| == |ms|;
    forall i, k | 0 <= i < k < |list| && list[i] != list[k] ensures TextAt(pool, list[i]) != TextAt(pool, list[k]) {
      assert list[i] in list && list[k] in list;
      NamesDiffer(pool, at, ms, list[i], list[k]);
    }
    DifferentTexts(pool, list);
    assert forall i :: 0 <= i < |list| ==> list[i] in list;
  }

  /** A written value can be converted: its keys are free of NUL and not too many. */
  lemma {:induction false} WrittenTame(fl: Floats, strtod: bytes -> Bits, at: nat, j: J)
    requires Restorable(fl, strtod, j)
    ensures Tame(at, TreeOf(fl, j))
    decreases j, 2
  {
    hide TameItems;
    hide TameMembers;
    hide OwnKeys;
    hide TreesOf;
    hide MembersOf;
    hide PrintInt;
    hide EscBody;
    match j {
      case JArr(items) =>
        ItemsTame(fl, strtod, at + 1, items, |items|);
        assert TreesOf(fl, items)[|items| - |items|..] == TreesOf(fl, items);
      case JObj(fields) =>
        OwnKeysCount(at, at + 1, MembersOf(fl, fields));
        MembersTame(fl, strtod, at, at + 1, fields, |fields|);
        assert Last(MembersOf(fl, fields), |fields|) == MembersOf(fl, fields);
      case _ =>
    }
  }

  lemma {:induction false} ItemsTame(fl: Floats, strtod: bytes -> Bits, pos: nat, items: seq<J>, n: nat)
    requires n <= |items| && forall i :: 0 <= i < |items| ==> Restorable(fl, strtod, items[i])
    ensures TameItems(pos, TreesOf(fl, items)[|items| - n..])
    decreases items, 1, n
  {
    hide Restorable;
    hide Tame;
    hide TreesOf;
    hide Len;
    var rest := TreesOf(fl, items)[|items| - n..];
    if n > 0 {
      var i := |items| - n;
      TreesAre(fl, items, i);
      WrittenTame(fl, strtod, pos, items[i]);
      ItemsTame(fl, strtod, pos + Len(rest[0]), items, n - 1);
      assert rest[1..] == TreesOf(fl, items)[|items| - (n - 1)..];
    }
  }

  lemma {:induction false} MembersTame(fl: Floats, strtod: bytes -> Bits, parent: nat, pos: nat, fields: seq<Field>, n: nat)
    requires n <= |fields| && forall i :: 0 <= i < |fields| ==> RestorableField(fl, strtod, fields[i])
    ensures TameMembers(parent, pos, Last(MembersOf(fl, fields), n))
    decreases fields, 1, n
  {
    hide Restorable;
    hide Tame;
    hide MembersOf;
    hide KeyText;
    hide StringToken;
    hide StoredKey;
    hide Len;
    var rest := Last(MembersOf(fl, fields), n);
    if n > 0 {
      var i := |fields| - n;
      MembersAre(fl, fields, i);
      assert RestorableField(fl, strtod, fields[i]);
      assert fields[i].val < fields[i];
      LastCons(MembersOf(fl, fields), n);
      WrittenTame(fl, strtod, pos + 1, fields[i].val);
      MembersTame(fl, strtod, parent, pos + 1 + Len(rest[0].val), fields, n - 1);
      assert rest[0] == MembersOf(fl, fields)[i] && rest[1..] == Last(MembersOf(fl, fields), n - 1);
    }
  }

  // ---------------------------------------------------------------- the canonical form

  ghost predicate KeysIncrease(fields: seq<Field>) {
    forall i, k :: 0 <= i < k < |fields| ==> Less(fields[i].key, fields[k].key)
  }

  /** The number a numeral is read as. */
  function NumberRead(strtod: bytes -> Bits, raw: bytes): J {
    match NumberValue(strtod, raw)
    case VInt(i) => JInt(i)
    case VDouble(d) => JNum(d)
    case _ => JBig(raw)
  }

  /** `k` is `j` with the keys of every object in byte order, and numbers as their text is read. */
  ghost predicate Canon(fl: Floats, strtod: bytes -> Bits, j: J, k: J)
    decreases j, 2
  {
    match j
    case JArr(items) => k.JArr? && |k.items| == |items| && CanonItems(fl, strtod, items, k.items)
    case JObj(fields) => k.JObj? && |k.fields| == |fields| && KeysIncrease(k.fields) && CanonFields(fl, strtod, fields, k.fields)
    case JNum(d) => k == NumberRead(strtod, fl.text(d))
    case JBig(x) => k == NumberRead(strtod, x)
    case _ => k == j
  }

  ghost predicate CanonItems(fl: Floats, strtod: bytes -> Bits, items: seq<J>, xs: seq<J>)
    requires |xs| <= |items|
    decreases items, 1
  {
    forall i :: 0 <= i < |xs| ==> CanonItem(fl, strtod, items, i, xs[i])
  }

  ghost predicate CanonItem(fl: Floats, strtod: bytes -> Bits, items: seq<J>, i: nat, x: J)
    requires i < |items|
    decreases items, 0
  {
    Canon(fl, strtod, items[i], x)
  }

  ghost predicate CanonFields(fl: Floats, strtod: bytes -> Bits, fields: seq<Field>, gs: seq<Field>)
    decreases fields, 2
  {
    forall i :: 0 <= i < |gs| ==> CanonField(fl, strtod, fields, gs[i])
  }

  /** The field has the key of a field of the object, and its value in canonical form. */
  ghost predicate CanonField(fl: Floats, strtod: bytes -> Bits, fields: seq<Field>, g: Field)
    decreases fields, 1
  {
    exists m :: 0 <= m < |fields| && CanonAt(fl, strtod, fields, m, g)
  }

  ghost predicate CanonAt(fl: Floats, strtod: bytes -> Bits, fields: seq<Field>, m: nat, g: Field)
    requires m < |fields|
    decreases fields, 0
  {
    fields[m].key == g.key && (assert fields[m].val < fields[m]; Canon(fl, strtod, fields[m].val, g.val))
  }

  /** The keys of every object stand in byte order. */
  ghost predicate InKeyOrder(j: J)
    decreases j
  {
    match j
    case JArr(items) => forall i :: 0 <= i < |items| ==> InKeyOrder(items[i])
    case JObj(fields) => KeysIncrease(fields) && forall i :: 0 <= i < |fields| ==> FieldInOrder(fields[i])
    case _ => true
  }

  ghost predicate FieldInOrder(f: Field)
    decreases f
  {
    assert f.val < f;
    InKeyOrder(f.val)
  }

  /** Every number is read from its text as it was. */
  ghost predicate NumbersKept(fl: Floats, strtod: bytes -> Bits, j: J)
    decreases j
  {
    match j
    case JNum(d) => NumberRead(strtod, fl.text(d)) == j
    case JBig(x) => NumberRead(strtod, x) == j
    case JArr(items) => forall i :: 0 <= i < |items| ==> NumbersKept(fl, strtod, items[i])
    case JObj(fields) => forall i :: 0 <= i < |fields| ==> FieldKept(fl, strtod, fields[i])
    case _ => true
  }

  ghost predicate FieldKept(fl: Floats, strtod: bytes -> Bits, f: Field)
    decreases f
  {
    assert f.val < f;
    NumbersKept(fl, strtod, f.val)
  }

  function FieldKeys(fields: seq<Field>): (r: seq<bytes>)
    ensures |r| == |fields| && forall i :: 0 <= i < |r| ==> r[i] == fields[i].key
  {
    if fields == [] then [] else FieldKeys(fields[..|fields| - 1]) + [fields[|fields| - 1].key]
  }

  lemma IncreasingKeys(fields: seq<Field>)
    requires KeysIncrease(fields)
    ensures Increasing(FieldKeys(fields)) && forall i, k :: 0 <= i < k < |fields| ==> fields[i].key != fields[k].key
  {
    hide Less;
    hide FieldKeys;
    forall i, k | 0 <= i < k < |fields| ensures fields[i].key != fields[k].key {
      LessIrreflexive(fields[k].key);
    }
  }

  lemma CanonFieldMeans(fl: Floats, strtod: bytes -> Bits, fields: seq<Field>, gs: seq<Field>, i: nat) returns (m: nat)
    requires CanonFields(fl, strtod, fields, gs) && i < |gs|
    ensures m < |fields| && CanonAt(fl, strtod, fields, m, gs[i])
  {
    hide CanonAt;
    assert CanonField(fl, strtod, fields, gs[i]);
    m :| 0 <= m < |fields| && CanonAt(fl, strtod, fields, m, gs[i]);
  }

  /** As many distinct keys from the same stock: all of them. */
  lemma SameKeySets(fl: Floats, strtod: bytes -> Bits, fields: seq<Field>, gs: seq<Field>)
    requires |gs| == |fields| && CanonFields(fl, strtod, fields, gs)
    requires forall i, k :: 0 <= i < k < |fields| ==> fields[i].key != fields[k].key
    requires forall i, k :: 0 <= i < k < |gs| ==> gs[i].key != gs[k].key
    ensures forall x :: x in FieldKeys(gs) <==> x in FieldKeys(fields)
  {
    hide FieldKeys;
    hide CanonFields;
    var a, b := FieldKeys(gs), FieldKeys(fields);
    forall x | x in a ensures x in b {
      var i :| 0 <= i < |a| && a[i] == x;
      var m := CanonFieldMeans(fl, strtod, fields, gs, i);
      assert b[m] == x;
    }
    KeysCounted(a);
    KeysCounted(b);
    var s, t := (set k | k in a), (set k | k in b);
    SubsetSame(s, t);
    forall x | x in b ensures x in a {
      assert x in t;
    }
  }

  lemma SubsetSame(s: set<bytes>, t: set<bytes>)
    requires s <= t && |s| == |t|
    ensures s == t
  {
    var rest := t - s;
    assert t == s + rest && |t| == |s| + |rest|;
  }

  /** The canonical form is the value itself exactly when its keys are in order. */
  lemma {:induction false} CanonSame(fl: Floats, strtod: bytes -> Bits, j: J, k: J)
    requires Restorable(fl, strtod, j) && Canon(fl, strtod, j, k)
    ensures k == j <==> InKeyOrder(j) && NumbersKept(fl, strtod, j)
    decreases j, 1
  {
    hide CanonItems;
    hide CanonFields;
    hide KeysIncrease;
    hide FieldInOrder;
    hide FieldKept;
    hide NumberRead;
    match j {
      case JArr(items) => CanonSameItems(fl, strtod, items, k.items);
      case JObj(fields) => CanonSameFields(fl, strtod, fields, k.fields);
      case _ =>
    }
  }

  lemma CanonSameItems(fl: Floats, strtod: bytes -> Bits, items: seq<J>, xs: seq<J>)
    requires |xs| == |items| && CanonItems(fl, strtod, items, xs) && forall i :: 0 <= i < |items| ==> Restorable(fl, strtod, items[i])
    ensures xs == items <==> forall i :: 0 <= i < |items| ==> InKeyOrder(items[i]) && NumbersKept(fl, strtod, items[i])
    decreases items, 0
  {
    hide Restorable;
    hide Canon;
    hide InKeyOrder;
    hide NumbersKept;
    forall i | 0 <= i < |items| ensures xs[i] == items[i] <==> InKeyOrder(items[i]) && NumbersKept(fl, strtod, items[i]) {
      assert CanonItem(fl, strtod, items, i, xs[i]);
      CanonSame(fl, strtod, items[i], xs[i]);
    }
  }

  lemma CanonSameFields(fl: Floats, strtod: bytes -> Bits, fields: seq<Field>, gs: seq<Field>)
    requires |gs| == |fields| && CanonFields(fl, strtod, fields, gs) && KeysIncrease(gs)
    requires forall i, k :: 0 <= i < k < |fields| ==> fields[i].key != fields[k].key
    requires forall i :: 0 <= i < |fields| ==> RestorableField(fl, strtod, fields[i])
    ensures gs == fields <==> KeysIncrease(fields) && forall i :: 0 <= i < |fields| ==> FieldInOrder(fields[i]) && FieldKept(fl, strtod, fields[i])
    decreases fields, 1
  {
    hide CanonFields;
    hide KeysIncrease;
    hide FieldKeys;
    hide Restorable;
    hide Canon;
    hide InKeyOrder;
    hide NumbersKept;
    if KeysIncrease(fields) {
      IncreasingKeys(fields);
      IncreasingKeys(gs);
      SameKeySets(fl, strtod, fields, gs);
      IncreasingUnique(FieldKeys(gs), FieldKeys(fields));
      forall i | 0 <= i < |fields| ensures gs[i] == fields[i] <==> FieldInOrder(fields[i]) && FieldKept(fl, strtod, fields[i]) {
        SameField(fl, strtod, fields, gs, i);
      }
    }
  }

  lemma SameField(fl: Floats, strtod: bytes -> Bits, fields: seq<Field>, gs: seq<Field>, i: nat)
    requires |gs| == |fields| && CanonFields(fl, strtod, fields, gs) && i < |fields| && FieldKeys(gs) == FieldKeys(fields)
    requires forall i, k :: 0 <= i < k < |fields| ==> fields[i].key != fields[k].key
    requires forall i :: 0 <= i < |fields| ==> RestorableField(fl, strtod, fields[i])
    ensures gs[i] == fields[i] <==> FieldInOrder(fields[i]) && FieldKept(fl, strtod, fields[i])
    decreases fields, 0
  {
    hide CanonFields;
    hide FieldKeys;
    hide Restorable;
    hide Canon;
    hide InKeyOrder;
    hide NumbersKept;
    assert FieldKeys(gs)[i] == FieldKeys(fields)[i];
    var m := CanonFieldMeans(fl, strtod, fields, gs, i);
    assert m == i;
    assert RestorableField(fl, strtod, fields[i]);
    assert fields[i].val < fields[i];
    CanonSame(fl, strtod, fields[i].val, gs[i].val);
  }

  // ---------------------------------------------------------------- what the conversion yields

  /** A converted value is never an absent one. */
  lemma RepPresent(strtod: bytes -> Bits, w: World, v: Value, pool: seq<Node>, tree: seq<KeyNode>, at: nat, t: Tree, lo: Floor)
    requires Represents(strtod, w, v, pool, tree, at, t, lo)
    ensures !Absent(v)
  {
    hide RepItems;
    hide RepMembers;
    hide InOrder;
    hide KeyText;
  }

  lemma LeafBack(fl: Floats, strtod: bytes -> Bits, w: World, j: J) returns (k: J)
    requires Restorable(fl, strtod, j) && Writable(fl, j) && !j.JArr? && !j.JObj?
    ensures TreeOf(fl, j).Leaf? && Denotes(fl, w, LeafValue(strtod, TreeOf(fl, j).tok), k) && Canon(fl, strtod, j, k)
  {
    hide PrintInt;
    hide EscBody;
    hide KeyText;
    hide CStr;
    hide IsUtf8;
    hide IsNumeral;
    k := j;
    match j {
      case JInt(i) => NumberBack(strtod, i);
      case JStr(s) => StringTokenText(s);
      case JNum(d) => k := NumberRead(strtod, fl.text(d));
      case JBig(x) => k := NumberRead(strtod, x);
      case _ =>
    }
  }

  /** The converted value stands for the canonical form of the written one. */
  lemma {:induction false} RepCanon(fl: Floats, strtod: bytes -> Bits, w: World, v: Value, pool: seq<Node>, tree: seq<KeyNode>, at: nat, j: J, lo: Floor)
    returns (k: J)
    requires Restorable(fl, strtod, j) && Writable(fl, j) && Represents(strtod, w, v, pool, tree, at, TreeOf(fl, j), lo)
    requires At(pool, at, TreeOf(fl, j)) && Sorted(pool, tree, at, TreeOf(fl, j)) && KeysFit(MAX_STORED_LEN, at, TreeOf(fl, j))
    ensures Denotes(fl, w, v, k) && Canon(fl, strtod, j, k)
    decreases j, 2
  {
    hide RepItems;
    hide RepMembers;
    hide TreesOf;
    hide MembersOf;
    hide CanonItems;
    hide CanonFields;
    hide DenotesCells;
    hide DenotesFields;
    hide LeafValue;
    hide ItemsAt;
    hide MembersAt;
    hide SortedItems;
    hide SortedMembers;
    hide SortedObject;
    hide KeysFitItems;
    hide KeysFitMembers;
    hide PrintInt;
    hide EscBody;
    hide KeysIncrease;
    if j.JArr? {
      var xs := CellsCanon(fl, strtod, w, w.lists[v.arr.value], pool, tree, at + 1, j.items, lo, |j.items|);
      assert w.lists[v.arr.value][..|j.items|] == w.lists[v.arr.value];
      k := JArr(xs);
    } else if j.JObj? {
      var d := w.dicts[v.obj.value];
      ObjectListed2(fl, strtod, pool, tree, at, j);
      ListFinal(pool, tree, at, MembersOf(fl, j.fields));
      var gs := MembersCanon(fl, strtod, w, d, pool, tree, at, j.fields, InOrder(tree, pool[at].keyTreeRoot), lo, |j.fields|);
      assert d.keys[..|j.fields|] == d.keys && d.vals[..|j.fields|] == d.vals;
      k := JObj(gs);
    } else {
      k := LeafBack(fl, strtod, w, j);
    }
  }

  lemma ObjectListed2(fl: Floats, strtod: bytes -> Bits, pool: seq<Node>, tree: seq<KeyNode>, at: nat, j: J)
    requires j.JObj? && Restorable(fl, strtod, j) && At(pool, at, TreeOf(fl, j)) && Sorted(pool, tree, at, TreeOf(fl, j)) && KeysFit(MAX_STORED_LEN, at, TreeOf(fl, j))
    ensures AllListed(pool, tree, at, MembersOf(fl, j.fields))
    ensures MembersAt(pool, at + 1, MembersOf(fl, j.fields)) && SortedMembers(pool, tree, at + 1, MembersOf(fl, j.fields))
    ensures KeysFitMembers(MAX_STORED_LEN, at, at + 1, MembersOf(fl, j.fields))
  {
    hide MembersOf;
    hide MembersAt;
    hide SortedObject;
    hide SortedMembers;
    hide KeysFitMembers;
    hide AllListed;
    forall i | 0 <= i < |j.fields| ensures 0 !in j.fields[i].key {
      assert RestorableField(fl, strtod, j.fields[i]);
    }
    TextsDiffer(fl, j.fields);
    ObjectListed(fl, pool, tree, at, j.fields);
  }

  lemma {:induction false} CellsCanon(fl: Floats, strtod: bytes -> Bits, w: World, cells: seq<Value>, pool: seq<Node>, tree: seq<KeyNode>, pos: nat, items: seq<J>, lo: Floor, n: nat)
    returns (xs: seq<J>)
    requires n <= |items| == |cells| && RepItems(strtod, w, cells, pool, tree, pos, TreesOf(fl, items), lo)
    requires forall i :: 0 <= i < |items| ==> Restorable(fl, strtod, items[i]) && Writable(fl, items[i])
    requires ItemsAt(pool, pos, TreesOf(fl, items)) && SortedItems(pool, tree, pos, TreesOf(fl, items)) && KeysFitItems(MAX_STORED_LEN, pos, TreesOf(fl, items))
    ensures |xs| == n && DenotesCells(fl, w, cells[..n], xs) && CanonItems(fl, strtod, items, xs)
    decreases items, 1, n
  {
    hide *;
    xs := [];
    if n == 0 {
      NoCells(fl, strtod, w, items);
      assert cells[..0] == [];
    } else {
      var i := n - 1;
      var before := CellsCanon(fl, strtod, w, cells, pool, tree, pos, items, lo, i);
      ItemRep(strtod, w, cells, pool, tree, pos, TreesOf(fl, items), lo, i);
      TreesAre(fl, items, i);
      ItemAt(pool, pos, TreesOf(fl, items), i);
      SortedItem(pool, tree, pos, TreesOf(fl, items), i);
      FitItem(pos, TreesOf(fl, items), i);
      var x := RepCanon(fl, strtod, w, cells[i], pool, tree, ItemPos(pos, TreesOf(fl, items), i), items[i], lo);
      RepPresent(strtod, w, cells[i], pool, tree, ItemPos(pos, TreesOf(fl, items), i), TreeOf(fl, items[i]), lo);
      xs := before + [x];
      CellsSnoc(fl, w, cells, before, i, x);
      CanonSnoc(fl, strtod, items, before, x);
    }
  }

  lemma NoCells(fl: Floats, strtod: bytes -> Bits, w: World, items: seq<J>)
    ensures DenotesCells(fl, w, [], []) && CanonItems(fl, strtod, items, [])
  {
  }

  lemma ItemRep(strtod: bytes -> Bits, w: World, cells: seq<Value>, pool: seq<Node>, tree: seq<KeyNode>, pos: nat, items: seq<Tree>, lo: Floor, i: nat)
    requires |cells| <= |items| && RepItems(strtod, w, cells, pool, tree, pos, items, lo) && i < |cells|
    ensures Represents(strtod, w, cells[i], pool, tree, ItemPos(pos, items, i), items[i], lo)
  {
    hide Represents;
    assert RepItem(strtod, w, cells[i], pool, tree, pos, items, i, lo);
  }

  lemma CellsSnoc(fl: Floats, w: World, cells: seq<Value>, xs: seq<J>, i: nat, x: J)
    requires i < |cells| && |xs| == i && DenotesCells(fl, w, cells[..i], xs) && !Absent(cells[i]) && Denotes(fl, w, cells[i], x)
    ensures DenotesCells(fl, w, cells[..i + 1], xs + [x])
  {
    hide Denotes;
    hide Absent;
    assert cells[..i + 1][..i] == cells[..i] && (xs + [x])[..i] == xs;
  }

  lemma CanonSnoc(fl: Floats, strtod: bytes -> Bits, items: seq<J>, xs: seq<J>, x: J)
    requires |xs| < |items| && CanonItems(fl, strtod, items, xs) && Canon(fl, strtod, items[|xs|], x)
    ensures CanonItems(fl, strtod, items, xs + [x])
  {
    hide Canon;
    var ys := xs + [x];
    forall i | 0 <= i < |ys| ensures CanonItem(fl, strtod, items, i, ys[i]) {
      if i < |xs| {
        assert ys[i] == xs[i];
      }
    }
  }

  lemma {:induction false} MembersCanon(fl: Floats, strtod: bytes -> Bits, w: World, d: Dict, pool: seq<Node>, tree: seq<KeyNode>, at: nat, fields: seq<Field>, list: seq<nat>, lo: Floor, n: nat)
    returns (gs: seq<Field>)
    requires |d.keys| == |d.vals| == |list| && n <= |list| && RepMembers(strtod, w, d, pool, tree, at + 1, MembersOf(fl, fields), list, lo)
    requires forall i :: 0 <= i < |fields| ==> RestorableField(fl, strtod, fields[i]) && WritableField(fl, fields[i])
    requires at < |pool| && list == InOrder(tree, pool[at].keyTreeRoot) && AllListed(pool, tree, at, MembersOf(fl, fields))
    requires MembersAt(pool, at + 1, MembersOf(fl, fields)) && SortedMembers(pool, tree, at + 1, MembersOf(fl, fields))
    requires KeysFitMembers(MAX_STORED_LEN, at, at + 1, MembersOf(fl, fields))
    ensures |gs| == n && DenotesFields(fl, w, d.keys[..n], d.vals[..n], gs) && KeysIncrease(gs) && CanonFields(fl, strtod, fields, gs)
    ensures forall i :: 0 <= i < n ==> gs[i].key == TextAt(pool, list[i])
    decreases fields, 1, n
  {
    hide *;
    gs := [];
    if n == 0 {
      NoFields(fl, strtod, w, fields);
      assert d.keys[..0] == [] && d.vals[..0] == [];
    } else {
      var i := n - 1;
      var ms := MembersOf(fl, fields);
      var before := MembersCanon(fl, strtod, w, d, pool, tree, at, fields, list, lo, i);
      var m := MemberRep(strtod, w, d, pool, tree, at, ms, list, lo, i);
      MembersAre(fl, fields, m);
      FieldParts(fl, strtod, fields[m]);
      Convert.MemberAt(pool, at + 1, ms, m);
      SortedMember(pool, tree, at + 1, ms, m);
      FitMember(at, at + 1, ms, m);
      assert fields[m].val < fields[m];
      var x := RepCanon(fl, strtod, w, d.vals[i], pool, tree, list[i] + 1, fields[m].val, lo);
      RepPresent(strtod, w, d.vals[i], pool, tree, list[i] + 1, TreeOf(fl, fields[m].val), lo);
      var g := Field(d.keys[i], x);
      gs := before + [g];
      FieldsSnoc(fl, w, d.keys, d.vals, before, i, g);
      CanonFieldsSnoc(fl, strtod, fields, before, m, g);
      ListFinal(pool, tree, at, ms);
      IncreaseSnoc(pool, list, before, g);
    }
  }

  /** Every listed key counts, as no text is repeated. */
  lemma ListFinal(pool: seq<Node>, tree: seq<KeyNode>, at: nat, ms: seq<Member>)
    requires AllListed(pool, tree, at, ms)
    ensures at < |pool|
    ensures var list := InOrder(tree, pool[at].keyTreeRoot); ByText(pool, list) && Finals(pool, list) == list && |list| == |ms|
  {
    hide InOrder;
    hide ByText;
    hide Finals;
    hide Names;
    AllFinal(pool, InOrder(tree, pool[at].keyTreeRoot));
  }

  lemma NoFields(fl: Floats, strtod: bytes -> Bits, w: World, fields: seq<Field>)
    ensures DenotesFields(fl, w, [], [], []) && KeysIncrease([]) && CanonFields(fl, strtod, fields, [])
  {
  }

  lemma FieldParts(fl: Floats, strtod: bytes -> Bits, f: Field)
    ensures RestorableField(fl, strtod, f) ==> Restorable(fl, strtod, f.val)
    ensures WritableField(fl, f) ==> Writable(fl, f.val)
  {
    hide Restorable;
    hide Writable;
    hide IsUtf8;
    assert f.val < f;
  }

  lemma MemberRep(strtod: bytes -> Bits, w: World, d: Dict, pool: seq<Node>, tree: seq<KeyNode>, at: nat, ms: seq<Member>, list: seq<nat>, lo: Floor, i: nat)
    returns (m: nat)
    requires |d.keys| == |d.vals| == |list| && i < |list| && RepMembers(strtod, w, d, pool, tree, at + 1, ms, list, lo)
    requires at < |pool| && list == InOrder(tree, pool[at].keyTreeRoot) && AllListed(pool, tree, at, ms)
    ensures m < |ms| && KeyPos(at + 1, ms, m) == list[i]
    ensures d.keys[i] == TextAt(pool, list[i]) == KeyText(ms[m].key)
    ensures Represents(strtod, w, d.vals[i], pool, tree, list[i] + 1, ms[m].val, lo)
  {
    hide Represents;
    hide InOrder;
    hide ByText;
    hide TextAt;
    hide KeyText;
    hide CStr;
    hide KeyPos;
    hide MemberIdx;
    assert Names(pool, at + 1, ms, list[i]);
    assert RepMember(strtod, w, d.keys[i], d.vals[i], pool, tree, at + 1, ms, list[i], lo);
    m := MemberIdx(at + 1, ms, list[i]).value;
  }

  lemma FieldsSnoc(fl: Floats, w: World, keys: seq<bytes>, vals: seq<Value>, gs: seq<Field>, i: nat, g: Field)
    requires |keys| == |vals| && i < |vals| && DenotesFields(fl, w, keys[..i], vals[..i], gs)
    requires g.key == keys[i] && !Absent(vals[i]) && Denotes(fl, w, vals[i], g.val)
    ensures DenotesFields(fl, w, keys[..i + 1], vals[..i + 1], gs + [g])
  {
    hide Denotes;
    hide Absent;
    assert keys[..i + 1][..i] == keys[..i] && vals[..i + 1][..i] == vals[..i] && (gs + [g])[..|gs|] == gs;
  }

  lemma CanonFieldsSnoc(fl: Floats, strtod: bytes -> Bits, fields: seq<Field>, gs: seq<Field>, m: nat, g: Field)
    requires CanonFields(fl, strtod, fields, gs) && m < |fields| && fields[m].key == g.key && Canon(fl, strtod, fields[m].val, g.val)
    ensures CanonFields(fl, strtod, fields, gs + [g])
  {
    hide Canon;
    var hs := gs + [g];
    assert CanonAt(fl, strtod, fields, m, g);
    forall i | 0 <= i < |hs| ensures CanonField(fl, strtod, fields, hs[i]) {
      if i < |gs| {
        assert hs[i] == gs[i];
      }
    }
  }

  lemma IncreaseSnoc(pool: seq<Node>, list: seq<nat>, gs: seq<Field>, g: Field)
    requires KeysIncrease(gs) && |gs| < |list| && ByText(pool, list) && g.key == TextAt(pool, list[|gs|])
    requires forall i :: 0 <= i < |gs| ==> gs[i].key == TextAt(pool, list[i])
    ensures KeysIncrease(gs + [g]) && forall i :: 0 <= i < |gs| + 1 ==> (gs + [g])[i].key == TextAt(pool, list[i])
  {
    hide Less;
    hide TextAt;
    var hs := gs + [g];
    forall i, k | 0 <= i < k < |hs| ensures Less(hs[i].key, hs[k].key) {
      assert Less(TextAt(pool, list[i]), TextAt(pool, list[k]));
    }
  }

  /** A double comes back as what `strtod` finds in its text if that has a fraction or an
      exponent, and as an integer if it has neither and 64 bits are enough. */
  lemma DoubleBack(fl: Floats, strtod: bytes -> Bits, w: World, d: Bits, k: J, v: Value)
    requires Writable(fl, JNum(d)) && Canon(fl, strtod, JNum(d), k) && Denotes(fl, w, v, k) && |fl.text(d)| < 128
    ensures Fractional(fl.text(d)) ==> v == VDouble(strtod(fl.text(d)))
    ensures !Fractional(fl.text(d)) && -9223372036854775808 <= IntegerOf(fl.text(d)) <= 9223372036854775807
            ==> v == VInt(IntegerOf(fl.text(d)))
    ensures NumbersKept(fl, strtod, JNum(d)) <==> Fractional(fl.text(d)) && strtod(fl.text(d)) == d
  {
    hide IsNumeral;
    hide Fractional;
    hide IntegerOf;
    hide IsFloat;
    NumeralMeans(strtod, fl.text(d), false);
  }

  // ---------------------------------------------------------------- there and back

  /** Parses a written text and converts what the parser leaves. */
  method ReadBackValue(fl: Floats, strtod: bytes -> Bits, text: bytes, hash: bytes -> nat, h: Heap, ghost j: J) returns (ok: bool, v: Value)
    requires h.Valid() && WorldOk(h.World())
    requires text == Print(fl, j) && Writable(fl, j) && Restorable(fl, strtod, j)
    requires Nesting(TreeOf(fl, j)) <= 64 && KeysFit(MAX_STORED_LEN, 0, TreeOf(fl, j)) && |text| <= 4294967295
    modifies h
    ensures h.Valid() && WorldOk(h.World()) && ok
    ensures exists k: J :: Denotes(fl, h.World(), v, k) && Canon(fl, strtod, j, k) && (k == j <==> InKeyOrder(j) && NumbersKept(fl, strtod, j))
  {
    hide Print;
    hide IsTextOf;
    hide Nesting;
    hide TreeOf;
    hide Restorable;
    hide Writable;
    hide KeysFit;
    hide Built;
    hide At;
    hide Marked;
    hide Len;
    hide Sorted;
    hide Rooted;
    hide Convertible;
    hide Represents;
    hide Denotes;
    hide Canon;
    hide InKeyOrder;
    hide NumbersKept;
    hide StateOk;
    hide WorldOk;
    hide KeyCount;
    hide Extends;
    ghost var t := TreeOf(fl, j);
    TextOfPrint(fl, j);
    NothingMarked(fl, strtod, 0, j);
    WrittenTame(fl, strtod, 0, j);
    ghost var m;
    ok, v, m := ConvertText(strtod, text, hash, h, t);
    MadeMeans(strtod, h.World(), m);
    ghost var k := RepCanon(fl, strtod, h.World(), v, m.pool, m.tree, 0, j, Floor(0, 0));
    CanonSame(fl, strtod, j, k);
  }

  lemma MadeMeans(strtod: bytes -> Bits, w: World, m: Made)
    requires MadeOk(strtod, w, m)
    ensures Represents(strtod, w, m.v, m.pool, m.tree, 0, m.t, Floor(0, 0)) && At(m.pool, 0, m.t) && Sorted(m.pool, m.tree, 0, m.t)
  {
    hide Represents;
    hide At;
    hide Sorted;
    hide Convertible;
  }

  /** Serializing a value and reading the text back gives the same value up to the order of
      keys, and exactly the same value exactly when its keys were in byte order. */
  method ThereAndBack(fl: Floats, strtod: bytes -> Bits, hash: bytes -> nat, source: Heap, v: Value, target: Heap, ghost j: J)
    returns (ok: bool, copy: Value)
    requires source != target && source.Valid() && InWorld(source.World(), v) && target.Valid() && WorldOk(target.World())
    requires Denotes(fl, source.World(), v, j) && Writable(fl, j) && Restorable(fl, strtod, j)
    requires Nesting(TreeOf(fl, j)) <= 64 && KeysFit(MAX_STORED_LEN, 0, TreeOf(fl, j)) && |Print(fl, j)| <= 4294967295
    modifies target
    ensures ok && source.Valid() && source.World() == old(source.World()) && target.Valid()
    ensures exists k: J :: Denotes(fl, target.World(), copy, k) && Canon(fl, strtod, j, k) && (k == j <==> InKeyOrder(j) && NumbersKept(fl, strtod, j))
  {
    hide Print;
    hide Nesting;
    hide TreeOf;
    hide Restorable;
    hide Writable;
    hide KeysFit;
    hide Denotes;
    hide Canon;
    hide InKeyOrder;
    hide NumbersKept;
    hide StateOk;
    hide WorldOk;
    var n := Serialize(source, fl, v, null);
    DenotableNow(fl, source.World(), v, j);
    var buf := new byte[n + 1];
    n := Serialize(source, fl, v, buf);
    var text := buf[..n];
    assert text == Print(fl, j)[..n] == Print(fl, j);
    ok, copy := ReadBackValue(fl, strtod, text, hash, target, j);
  }

  lemma DenotableNow(fl: Floats, w: World, v: Value, j: J)
    requires Denotes(fl, w, v, j)
    ensures Denotable(fl, w, v)
  {
    hide Denotes;
  }
}
