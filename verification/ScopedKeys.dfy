/** The scoped key of a member: the decimal index of its object, a colon, the key's text
    (src/parser/parser.c). */
module ScopedKeys {
  import opened Bytes

  const COLON_BYTE: byte := 58

  /** A key whose scoped form is longer is neither looked up nor stored. */
  const MAX_STORED_LEN: nat := 65535

  /** `%d`. */
  function Decimal(n: nat): (r: bytes)
    ensures r != [] && forall i :: 0 <= i < |r| ==> 48 <= r[i] <= 57
  {
    if n < 10 then [(48 + n) as byte] else Decimal(n / 10) + [(48 + n % 10) as byte]
  }

  lemma {:induction false} DecimalInjective(m: nat, n: nat)
    requires Decimal(m) == Decimal(n)
    ensures m == n
  {
    DecimalLen(m);
    DecimalLen(n);
    var a, b := Decimal(m), Decimal(n);
    assert a[|a| - 1] == b[|b| - 1];
    if m >= 10 && n >= 10 {
      assert Decimal(m / 10) == a[..|a| - 1] && Decimal(n / 10) == b[..|b| - 1];
      DecimalInjective(m / 10, n / 10);
    }
  }

  lemma DecimalLen(n: nat)
    ensures |Decimal(n)| == 1 <==> n < 10
  {
  }

  function Scoped(parent: nat, text: bytes): (r: bytes)
    ensures |r| == |Decimal(parent)| + 1 + |text|
  {
    Decimal(parent) + [COLON_BYTE] + text
  }

  function FirstColon(s: bytes): nat {
    if s == [] || s[0] == COLON_BYTE then 0 else 1 + FirstColon(s[1..])
  }

  lemma {:induction false} ColonAfter(a: bytes, x: bytes)
    requires COLON_BYTE !in a
    ensures FirstColon(a + [COLON_BYTE] + x) == |a|
  {
    var s := a + [COLON_BYTE] + x;
    if a == [] {
      assert s[0] == COLON_BYTE;
    } else {
      assert s[0] == a[0] && s[1..] == a[1..] + [COLON_BYTE] + x;
      ColonAfter(a[1..], x);
    }
  }

  /** Two prefixes without a colon, each followed by one, are the same prefix. */
  lemma SplitAtColon(a: bytes, x: bytes, b: bytes, y: bytes)
    requires COLON_BYTE !in a && COLON_BYTE !in b && a + [COLON_BYTE] + x == b + [COLON_BYTE] + y
    ensures a == b && x == y
  {
    hide FirstColon;
    var s, t := a + [COLON_BYTE] + x, b + [COLON_BYTE] + y;
    ColonAfter(a, x);
    ColonAfter(b, y);
    assert a == s[..|a|] && b == t[..|b|];
    assert x == s[|a| + 1..] && y == t[|b| + 1..];
  }

  lemma DigitsNoColon(n: nat)
    ensures COLON_BYTE !in Decimal(n)
  {
    hide Decimal;
  }

  /** A scoped key determines the object and the key. */
  lemma ScopedInjective(p: nat, s: bytes, q: nat, t: bytes)
    requires Scoped(p, s) == Scoped(q, t)
    ensures p == q && s == t
  {
    hide Decimal;
    DigitsNoColon(p);
    DigitsNoColon(q);
    SplitAtColon(Decimal(p), s, Decimal(q), t);
    DecimalInjective(p, q);
  }
}
