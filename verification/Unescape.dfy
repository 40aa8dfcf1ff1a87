/** String unescaping (src/parser/unescape.c). Shifts and masks are written as the
    arithmetic they perform. */
module Unescape {
  import opened Bytes

  predicate IsHex(c: byte) {
    48 <= c <= 57 || 97 <= c <= 102 || 65 <= c <= 70
  }

  function HexValue(c: byte): (v: int)
    requires IsHex(c)
    ensures 0 <= v < 16
  {
    if c <= 57 then c as int - 48 else if c >= 97 then c as int - 87 else c as int - 55
  }

  /** Four hexadecimal digits stand at the front of `s`. */
  predicate IsHex4(s: bytes) {
    |s| >= 4 && IsHex(s[0]) && IsHex(s[1]) && IsHex(s[2]) && IsHex(s[3])
  }

  function Hex4(s: bytes): (v: int)
    requires IsHex4(s)
    ensures 0 <= v < 0x10000
  {
    ((HexValue(s[0]) * 16 + HexValue(s[1])) * 16 + HexValue(s[2])) * 16 + HexValue(s[3])
  }

  predicate HighSurrogate(u: int) { 0xD800 <= u <= 0xDBFF }

  predicate LowSurrogate(u: int) { 0xDC00 <= u <= 0xDFFF }

  function PairCodePoint(u1: int, u2: int): (cp: int)
    requires HighSurrogate(u1) && LowSurrogate(u2)
    ensures 0x10000 <= cp <= 0x10FFFF
  {
    0x10000 + (u1 - 0xD800) * 0x400 + (u2 - 0xDC00)
  }

  /** `encode_utf8`. */
  function Utf8(cp: int): (r: bytes)
    requires 0 <= cp <= 0x10FFFF
    ensures 1 <= |r| <= 4
    ensures cp <= 0xFFFF ==> |r| <= 3
  {
    if cp <= 0x7F then [cp as byte]
    else if cp <= 0x7FF then [(0xC0 + cp / 64) as byte, (0x80 + cp % 64) as byte]
    else if cp <= 0xFFFF then
      [(0xE0 + cp / 4096) as byte, (0x80 + cp / 64 % 64) as byte, (0x80 + cp % 64) as byte]
    else
      [(0xF0 + cp / 262144) as byte, (0x80 + cp / 4096 % 64) as byte,
       (0x80 + cp / 64 % 64) as byte, (0x80 + cp % 64) as byte]
  }

  const BACKSLASH: byte := 92
  const QUOTE: byte := 34

  /** What one pass of the decoding loop reads and writes. */
  datatype Unit = Unit(len: nat, out: bytes)

  /** The two-character escapes other than `\u`; any other character stands for itself. */
  function SimpleEscape(c: byte): byte {
    if c == 98 then 8
    else if c == 102 then 12
    else if c == 110 then 10
    else if c == 114 then 13
    else if c == 116 then 9
    else c
  }

  function DecodeUnit(s: bytes): (u: Unit)
    requires s != []
    ensures 1 <= u.len <= |s|
    ensures |u.out| <= u.len
    ensures s[0] == BACKSLASH ==> |u.out| < u.len
  {
    if s[0] != BACKSLASH then Unit(1, [s[0]])
    else if |s| == 1 then Unit(1, [])
    else if s[1] != 117 then Unit(2, [SimpleEscape(s[1])])
    else if !IsHex4(s[2..]) then Unit(2, [117])
    else
      var u1 := Hex4(s[2..]);
      if HighSurrogate(u1) && |s| >= 12 && s[6] == BACKSLASH && s[7] == 117
         && IsHex4(s[8..]) && LowSurrogate(Hex4(s[8..]))
      then Unit(12, Utf8(PairCodePoint(u1, Hex4(s[8..]))))
      else Unit(6, Utf8(u1))
  }

  /** The decoded form of a raw string slice. */
  function Unescaped(s: bytes): (r: bytes)
    ensures |r| <= |s|
  {
    if s == [] then [] else DecodeUnit(s).out + Unescaped(s[DecodeUnit(s).len..])
  }

  /** Decoding changes nothing exactly when there is no backslash; otherwise it shortens. */
  lemma {:induction false} UnescapedShrinks(s: bytes)
    ensures BACKSLASH !in s ==> Unescaped(s) == s
    ensures BACKSLASH in s ==> |Unescaped(s)| < |s|
  {
    if s != [] {
      var u := DecodeUnit(s);
      UnescapedShrinks(s[u.len..]);
      assert s == s[..u.len] + s[u.len..];
      if s[0] != BACKSLASH {
        assert s == [s[0]] + s[1..];
      }
    }
  }

  /** `parse_4hex`. */
  method Parse4Hex(src: bytes, r: nat) returns (ok: bool, v: int)
    requires r + 4 <= |src|
    ensures ok == IsHex4(src[r..])
    ensures ok ==> v == Hex4(src[r..])
  {
    v := 0;
    var i := 0;
    while i < 4
      invariant 0 <= i <= 4
      invariant i == 0 ==> v == 0
      invariant i >= 1 ==> IsHex(src[r])
      invariant i >= 2 ==> IsHex(src[r + 1])
      invariant i >= 3 ==> IsHex(src[r + 2])
      invariant i >= 4 ==> IsHex(src[r + 3])
      invariant i == 1 ==> v == HexValue(src[r])
      invariant i == 2 ==> v == HexValue(src[r]) * 16 + HexValue(src[r + 1])
      invariant i == 3 ==> v == (HexValue(src[r]) * 16 + HexValue(src[r + 1])) * 16 + HexValue(src[r + 2])
      invariant i == 4 ==> v == Hex4(src[r..])
    {
      var c := src[r + i];
      if !IsHex(c) {
        return false, 0;
      }
      v := v * 16 + HexValue(c);
      i := i + 1;
    }
    ok := true;
  }

  lemma UnescapedStep(src: bytes, r: nat, n: nat, out: bytes)
    requires r < |src|
    requires DecodeUnit(src[r..]) == Unit(n, out)
    ensures r + n <= |src|
    ensures Unescaped(src[r..]) == out + Unescaped(src[r + n..])
  {
    hide DecodeUnit;
    assert src[r..][n..] == src[r + n..];
  }

  /** `jsonv_unescape_string`: decodes into `dest` from position `at`, then writes a NUL. */
  method UnescapeString(src: bytes, dest: array<byte>, at: nat) returns (w: nat)
    requires at + |Unescaped(src)| + 1 <= dest.Length
    modifies dest
    ensures w == |Unescaped(src)|
    ensures dest[..] == Patch(old(dest[..]), at, Unescaped(src) + [0])
  {
    hide *;
    PatchNone(dest[..], at);
    ghost var done: bytes := [];
    var r := 0;
    w := 0;
    while r < |src|
      invariant r <= |src|
      invariant w == |done|
      invariant done + Unescaped(src[r..]) == Unescaped(src)
      invariant dest[..] == Patch(old(dest[..]), at, done)
    {
      var n, out := DecodeStep(src, r);
      UnescapedStep(src, r, n, out);
      Regroup(done, out, Unescaped(src[r + n..]));
      Store(dest, at + w, out);
      PatchPatch(old(dest[..]), at, done, out);
      done := done + out;
      r := r + n;
      w := w + |out|;
    }
    assert done == Unescaped(src);
    Store(dest, at + w, [0]);
    PatchPatch(old(dest[..]), at, done, [0]);
  }

  /** One pass of the loop: reads a unit at `r` and yields the bytes it stands for. */
  method DecodeStep(src: bytes, r: nat) returns (n: nat, out: bytes)
    requires r < |src|
    ensures Unit(n, out) == DecodeUnit(src[r..])
  {
    var s := src[r..];
    var c := src[r];
    if c != BACKSLASH {
      return 1, [c];
    }
    if r + 1 >= |src| {
      return 1, [];
    }
    var esc := src[r + 1];
    if esc == 117 {
      if r + 6 <= |src| {
        assert s[2..] == src[r + 2..];
        var ok, u1 := Parse4Hex(src, r + 2);
        if ok {
          if HighSurrogate(u1) && r + 12 <= |src| && src[r + 6] == BACKSLASH && src[r + 7] == 117 {
            assert s[8..] == src[r + 8..];
            var ok2, u2 := Parse4Hex(src, r + 8);
            if ok2 && LowSurrogate(u2) {
              return 12, Utf8(PairCodePoint(u1, u2));
            }
          }
          return 6, Utf8(u1);
        }
      }
      return 2, [117];
    }
    return 2, [SimpleEscape(esc)];
  }
}
