/** The bytecode buffer with its two write cursors, and the `emit_*` helpers
    (src/validation/schema.c). */
module Writer {
  import opened Bytes
  import opened Ast
  import opened Unescape
  import opened Keywords
  import opened Code
  import opened PoolSizes

  /** Writing in the code section: it grows, the pool stays. */
  lemma PatchCode(s: bytes, at: nat, bs: bytes, lo: nat, hi: nat)
    requires at + |bs| <= lo <= hi <= |s|
    ensures Patch(s, at, bs)[..at + |bs|] == s[..at] + bs
    ensures Patch(s, at, bs)[lo..hi] == s[lo..hi]
  {
  }

  /** Writing at the end of the pool: it grows, the code stays. `bs` may be followed by
      more bytes. */
  lemma PatchPool(s: bytes, code: nat, lo: nat, at: nat, bs: bytes, tail: bytes)
    requires code <= lo <= at && at + |bs + tail| <= |s|
    ensures Patch(s, at, bs + tail)[..code] == s[..code]
    ensures Patch(s, at, bs + tail)[lo..at + |bs|] == s[lo..at] + bs
  {
  }

  class CodeWriter {
    const buf: array<byte>
    const poolStart: nat
    var code: nat
    var data: nat

    ghost predicate Valid()
      reads this
    {
      code <= poolStart <= data <= buf.Length
    }

    /** What has been written before the code cursor, header included. */
    ghost function Written(): bytes
      requires Valid()
      reads this, buf
    {
      buf[..code]
    }

    /** What has been written into the constant pool. */
    ghost function Pool(): bytes
      requires Valid()
      reads this, buf
    {
      buf[poolStart..data]
    }

    constructor (b: array<byte>, start: nat, header: nat)
      requires header <= start <= b.Length
      ensures Valid() && buf == b && poolStart == start && code == header && data == start
    {
      buf, poolStart, code, data := b, start, header, start;
    }

    method EmitByte(v: byte)
      requires Valid() && code < poolStart
      modifies this`code, buf
      ensures Valid() && code == old(code) + 1
      ensures Written() == old(Written()) + [v] && Pool() == old(Pool())
    {
      hide Patch;
      Store(buf, code, [v]);
      PatchCode(old(buf[..]), code, [v], poolStart, data);
      code := code + 1;
    }

    method EmitU32(v: uint32)
      requires Valid() && code + 4 <= poolStart
      modifies this`code, buf
      ensures Valid() && code == old(code) + 4
      ensures Written() == old(Written()) + U32(v) && Pool() == old(Pool())
    {
      hide Patch;
      hide U32;
      Store(buf, code, U32(v));
      PatchCode(old(buf[..]), code, U32(v), poolStart, data);
      code := code + 4;
    }

    method EmitU64(v: Bits)
      requires Valid() && code + 8 <= poolStart
      modifies this`code, buf
      ensures Valid() && code == old(code) + 8
      ensures Written() == old(Written()) + U64(v) && Pool() == old(Pool())
    {
      hide Patch;
      hide U64;
      Store(buf, code, U64(v));
      PatchCode(old(buf[..]), code, U64(v), poolStart, data);
      code := code + 8;
    }

    /** Puts the text of a string token at the data cursor. Unescaping leaves a NUL behind
        it, inside the space the raw string was given. */
    method AppendText(t: Token) returns (n: nat)
      requires Valid() && WfToken(t) && data + RawLen(t) <= buf.Length
      modifies this`data, buf
      ensures Valid() && n == |Text(t)| && data == old(data) + n
      ensures Written() == old(Written()) && Pool() == old(Pool()) + Text(t)
    {
      hide Patch;
      hide Unescaped;
      if !t.esc || t.kind != TString {
        Store(buf, data, Text(t));
        n := |Text(t)|;
        PatchPool(old(buf[..]), code, poolStart, data, Text(t), []);
        assert Text(t) + [] == Text(t);
      } else {
        UnescapedShrinks(t.raw);
        n := UnescapeString(t.raw, buf, data);
        PatchPool(old(buf[..]), code, poolStart, data, Text(t), [0]);
      }
      data := data + n;
    }

    /** `emit_string_ref`. */
    method EmitStringRef(t: Token)
      requires Valid() && code + 8 <= poolStart && WfToken(t) && data + RawLen(t) <= buf.Length
      modifies this, buf
      ensures Valid() && code == old(code) + 8 && data == old(data) + |Text(t)|
      ensures Written() == old(Written()) + EncStr(Text(t), |old(Pool())|)
      ensures Pool() == old(Pool()) + Text(t)
    {
      hide U32;
      hide Text;
      hide WfToken;
      hide RawLen;
      hide Wrap32;
      TextLen(t);
      ghost var d := |Pool()|;
      EmitU32(Wrap32(data - poolStart));
      var n := AppendText(t);
      EmitU32(Wrap32(n));
      Regroup(old(Written()), U32(Wrap32(d)), U32(Wrap32(n)));
    }
  }
}
