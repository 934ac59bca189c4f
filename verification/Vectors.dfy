/** Embedding vectors as blobs: each 32-bit word little-endian (internal/memory/embed.go).
    A float is its bits. */
module Vectors {
  import opened Text

  newtype Byte = n: int | 0 <= n < 0x100
  newtype Word = n: int | 0 <= n < 0x1_0000_0000

  function Bytes(w: Word): (b: seq<Byte>)
    ensures |b| == 4
  {
    [(w % 0x100) as Byte, (w / 0x100 % 0x100) as Byte, (w / 0x1_0000 % 0x100) as Byte, (w / 0x100_0000) as Byte]
  }

  function WordOf(a: Byte, b: Byte, c: Byte, d: Byte): Word {
    a as Word + 0x100 * (b as Word) + 0x1_0000 * (c as Word) + 0x100_0000 * (d as Word)
  }

  /** What `encodeVec` stores. */
  function Pack(v: seq<Word>): (b: seq<Byte>)
    ensures |b| == 4 * |v|
  {
    if v == [] then [] else Pack(v[..|v| - 1]) + Bytes(v[|v| - 1])
  }

  /** What `decodeVec` reads; nothing when the blob is not whole words. */
  function Unpack(b: seq<Byte>): (v: Option<seq<Word>>)
    ensures v.Some? <==> |b| % 4 == 0
    ensures v.Some? ==> 4 * |v.value| == |b|
    decreases |b|
  {
    if |b| % 4 != 0 then None
    else if b == [] then Some([])
    else
      var k := |b| - 4;
      Some(Unpack(b[..k]).value + [WordOf(b[k], b[k + 1], b[k + 2], b[k + 3])])
  }

  lemma LowByte(high: int, low: int)
    requires 0 <= low < 0x100
    ensures (0x100 * high + low) % 0x100 == low && (0x100 * high + low) / 0x100 == high
  {
  }

  lemma Shifts(n: int)
    requires n >= 0
    ensures n / 0x1_0000 == n / 0x100 / 0x100 && n / 0x100_0000 == n / 0x100 / 0x100 / 0x100
  {
  }

  lemma DivMod(n: int)
    requires n >= 0
    ensures n == 0x100 * (n / 0x100) + n % 0x100
  {
  }

  lemma WordRoundTrip(w: Word)
    ensures var b := Bytes(w); WordOf(b[0], b[1], b[2], b[3]) == w
  {
    var n := w as int;
    Shifts(n);
    DivMod(n);
    DivMod(n / 0x100);
    DivMod(n / 0x100 / 0x100);
    var b := Bytes(w);
    assert b[0] as int == n % 0x100 && b[1] as int == n / 0x100 % 0x100;
    assert b[2] as int == n / 0x100 / 0x100 % 0x100 && b[3] as int == n / 0x100 / 0x100 / 0x100;
    hide Bytes;
    var x := WordOf(b[0], b[1], b[2], b[3]);
    assert x as int == b[0] as int + 0x100 * (b[1] as int) + 0x1_0000 * (b[2] as int) + 0x100_0000 * (b[3] as int);
  }

  lemma BytesRoundTrip(a: Byte, b: Byte, c: Byte, d: Byte)
    ensures Bytes(WordOf(a, b, c, d)) == [a, b, c, d]
  {
    var high3 := d as int;
    var high2 := 0x100 * high3 + c as int;
    var high1 := 0x100 * high2 + b as int;
    var w := WordOf(a, b, c, d);
    assert w as int == 0x100 * high1 + a as int;
    LowByte(high1, a as int);
    LowByte(high2, b as int);
    LowByte(high3, c as int);
    Shifts(w as int);
    hide WordOf;
    assert (w % 0x100) as int == w as int % 0x100;
  }

  lemma UnpackOne(head: seq<Byte>, w: seq<Byte>)
    requires |head| % 4 == 0 && |w| == 4
    ensures Unpack(head + w) == Some(Unpack(head).value + [WordOf(w[0], w[1], w[2], w[3])])
  {
    hide WordOf, Unpack;
    var b := head + w;
    assert |b| == |head| + 4;
    UnpackStep(b);
    assert b[..|b| - 4] == head;
    assert b[|b| - 4] == w[0] && b[|b| - 3] == w[1] && b[|b| - 2] == w[2] && b[|b| - 1] == w[3];
  }

  lemma UnpackStep(b: seq<Byte>)
    requires |b| % 4 == 0 && |b| >= 4
    ensures (|b| - 4) % 4 == 0
    ensures var k := |b| - 4;
            Unpack(b) == Some(Unpack(b[..k]).value + [WordOf(b[k], b[k + 1], b[k + 2], b[k + 3])])
  {
    hide WordOf;
  }

  /** A stored vector reads back as itself. */
  lemma {:induction false} UnpackPack(v: seq<Word>)
    ensures Unpack(Pack(v)) == Some(v)
    decreases |v|
  {
    if v != [] {
      hide Bytes, WordOf;
      var last := |v| - 1;
      var head, w := Pack(v[..last]), Bytes(v[last]);
      UnpackPack(v[..last]);
      WordRoundTrip(v[last]);
      UnpackOne(head, w);
      assert v == v[..last] + [v[last]];
    }
  }

  /** Every blob of whole words is what some vector is stored as. */
  lemma {:induction false} PackUnpack(b: seq<Byte>)
    requires |b| % 4 == 0
    ensures Pack(Unpack(b).value) == b
    decreases |b|
  {
    if b != [] {
      hide Bytes, WordOf;
      var k := |b| - 4;
      var head, w := b[..k], b[k..];
      PackUnpack(head);
      assert b == head + w;
      UnpackOne(head, w);
      BytesRoundTrip(w[0], w[1], w[2], w[3]);
      hide Unpack;
      PackOne(Unpack(head).value, WordOf(w[0], w[1], w[2], w[3]));
    }
  }

  lemma PackOne(v: seq<Word>, x: Word)
    ensures Pack(v + [x]) == Pack(v) + Bytes(x)
  {
    hide Bytes;
    assert (v + [x])[..|v|] == v;
  }

  /** `encodeVec` */
  method EncodeVec(v: seq<Word>) returns (b: array<Byte>)
    ensures fresh(b) && b[..] == Pack(v)
  {
    hide Bytes;
    b := new Byte[|v| * 4];
    for i := 0 to |v|
      invariant b.Length == 4 * |v|
      invariant b[..4 * i] == Pack(v[..i])
    {
      var w := Bytes(v[i]);
      b[4 * i], b[4 * i + 1], b[4 * i + 2], b[4 * i + 3] := w[0], w[1], w[2], w[3];
      assert v[..i + 1][..i] == v[..i];
      assert b[..4 * (i + 1)] == b[..4 * i] + w;
    }
    assert v[..|v|] == v && b[..4 * |v|] == b[..];
  }

  /** `decodeVec` */
  method DecodeVec(b: array<Byte>) returns (v: Option<array<Word>>)
    ensures v.None? <==> Unpack(b[..]).None?
    ensures v.Some? ==> fresh(v.value) && Some(v.value[..]) == Unpack(b[..])
  {
    hide WordOf;
    if b.Length % 4 != 0 { return None; }
    var out := new Word[b.Length / 4];
    for i := 0 to out.Length
      invariant Some(out[..i]) == Unpack(b[..4 * i])
    {
      var k := 4 * i;
      out[i] := WordOf(b[k], b[k + 1], b[k + 2], b[k + 3]);
      assert b[..k + 4][..k] == b[..k];
      assert out[..i + 1] == out[..i] + [out[i]];
    }
    assert b[..4 * out.Length] == b[..] && out[..out.Length] == out[..];
    v := Some(out);
  }
}
