/** Bytes, little-endian words and a few facts about slices that every other module uses. */
module Bytes {

  newtype byte = b: int | 0 <= b < 256

  type bytes = seq<byte>

  type uint32 = v: int | 0 <= v < 0x1_0000_0000

  type int32 = v: int | -0x8000_0000 <= v < 0x8000_0000

  /** An IEEE double as an opaque 64-bit pattern. */
  type Bits = v: int | 0 <= v < 0x1_0000_0000_0000_0000

  /** The three words of JSON. */
  const TRUE_WORD: bytes := [116, 114, 117, 101]
  const FALSE_WORD: bytes := [102, 97, 108, 115, 101]
  const NULL_WORD: bytes := [110, 117, 108, 108]

  datatype Option<+T> = None | Some(value: T)

  /** The bytes of an ASCII literal. */
  function Ascii(s: string): (r: bytes)
    requires forall i :: 0 <= i < |s| ==> s[i] as int < 256
    ensures |r| == |s|
    ensures forall i :: 0 <= i < |s| ==> r[i] as int == s[i] as int
  {
    seq(|s|, i requires 0 <= i < |s| => s[i] as int as byte)
  }

  function U32(v: uint32): (r: bytes)
    ensures |r| == 4
  {
    var v1 := v / 256;
    var v2 := v1 / 256;
    [(v % 256) as byte, (v1 % 256) as byte, (v2 % 256) as byte, (v2 / 256) as byte]
  }

  function GetU32(s: bytes, i: nat): (v: uint32)
    requires i + 4 <= |s|
  {
    s[i] as int + 256 * (s[i + 1] as int + 256 * (s[i + 2] as int + 256 * (s[i + 3] as int)))
  }

  /** A C conversion of a 32-bit signed value to its unsigned pattern, and back. */
  function FromI32(v: int32): uint32 {
    if v < 0 then v + 0x1_0000_0000 else v
  }

  function ToI32(v: uint32): int32 {
    if v >= 0x8000_0000 then v - 0x1_0000_0000 else v
  }

  function U64(v: Bits): (r: bytes)
    ensures |r| == 8
  {
    U32(v % 0x1_0000_0000) + U32(v / 0x1_0000_0000)
  }

  /** `bs` stands in `s` at position `i`. */
  ghost predicate Here(s: bytes, i: nat, bs: bytes) {
    i + |bs| <= |s| && s[i..i + |bs|] == bs
  }

  lemma HereSplit(s: bytes, i: nat, a: bytes, b: bytes)
    ensures Here(s, i, a + b) <==> Here(s, i, a) && Here(s, i + |a|, b)
  {
    if i + |a| + |b| <= |s| {
      assert s[i..i + |a| + |b|] == s[i..i + |a|] + s[i + |a|..i + |a| + |b|];
      assert (a + b)[..|a|] == a && (a + b)[|a|..] == b;
      if s[i..i + |a| + |b|] == a + b {
        assert s[i..i + |a|] == (s[i..i + |a| + |b|])[..|a|];
        assert s[i + |a|..i + |a| + |b|] == (s[i..i + |a| + |b|])[|a|..];
      }
    }
  }

  lemma HereExtend(s: bytes, x: bytes, i: nat, bs: bytes)
    requires Here(s, i, bs)
    ensures Here(s + x, i, bs)
  {
    assert (s + x)[i..i + |bs|] == s[i..i + |bs|];
  }

  lemma ReadByte(s: bytes, i: nat, b: byte)
    requires Here(s, i, [b])
    ensures s[i] == b
  {
    assert s[i] == s[i..i + 1][0];
  }

  lemma ReadU32(s: bytes, i: nat, v: uint32)
    requires Here(s, i, U32(v))
    ensures i + 4 <= |s| && GetU32(s, i) == v
  {
    var w := s[i..i + 4];
    assert w[0] == s[i] && w[1] == s[i + 1] && w[2] == s[i + 2] && w[3] == s[i + 3];
    var v1 := v / 256;
    var v2 := v1 / 256;
    assert v == v % 256 + 256 * v1;
    assert v1 == v1 % 256 + 256 * v2;
    assert v2 == v2 % 256 + 256 * (v2 / 256);
  }

  function GetU64(s: bytes, i: nat): (v: Bits)
    requires i + 8 <= |s|
  {
    GetU32(s, i) + 0x1_0000_0000 * GetU32(s, i + 4)
  }

  lemma ReadU64(s: bytes, i: nat, v: Bits)
    requires Here(s, i, U64(v))
    ensures i + 8 <= |s| && GetU64(s, i) == v
  {
    HereSplit(s, i, U32(v % 0x1_0000_0000), U32(v / 0x1_0000_0000));
    ReadU32(s, i, v % 0x1_0000_0000);
    ReadU32(s, i + 4, v / 0x1_0000_0000);
  }

  lemma Regroup<T>(a: seq<T>, b: seq<T>, c: seq<T>)
    ensures a + (b + c) == a + b + c
  {
  }

  /** `s` with `bs` written over it at `at`. */
  function Patch(s: bytes, at: nat, bs: bytes): (r: bytes)
    requires at + |bs| <= |s|
    ensures |r| == |s|
  {
    s[..at] + bs + s[at + |bs|..]
  }

  lemma PatchNone(s: bytes, at: nat)
    requires at <= |s|
    ensures Patch(s, at, []) == s
  {
  }

  lemma PatchPatch(s: bytes, at: nat, a: bytes, b: bytes)
    requires at + |a| + |b| <= |s|
    ensures Patch(Patch(s, at, a), at + |a|, b) == Patch(s, at, a + b)
  {
    var m := Patch(s, at, a);
    assert m[..at + |a|] == s[..at] + a;
    assert m[at + |a| + |b|..] == s[at + |a| + |b|..];
  }

  method Store(dest: array<byte>, at: nat, bs: bytes)
    requires at + |bs| <= dest.Length
    modifies dest
    ensures dest[..] == Patch(old(dest[..]), at, bs)
  {
    forall i | 0 <= i < |bs| {
      dest[at + i] := bs[i];
    }
    assert dest[..] == Patch(old(dest[..]), at, bs);
  }
}
