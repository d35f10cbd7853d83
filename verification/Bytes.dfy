// Bytes and big-endian fields (network byte order).
module Bytes {

  type Byte = b: int | 0 <= b < 256 witness 0

  // The value of a big-endian field of any width.
  function Be(b: seq<Byte>): (v: nat) {
    if b == [] then 0 else Be(b[..|b| - 1]) * 256 + b[|b| - 1]
  }

  function Pow256(n: nat): (p: nat)
    ensures p > 0
  {
    if n == 0 then 1 else 256 * Pow256(n - 1)
  }

  // The big-endian field of n bytes that holds v.
  function Enc(n: nat, v: nat): (b: seq<Byte>)
    ensures |b| == n
  {
    if n == 0 then [] else Enc(n - 1, v / 256) + [v % 256]
  }

  // A field read back gives the value modulo its width.
  lemma {:induction false} BeOfEnc(n: nat, v: nat)
    requires v < Pow256(n)
    ensures Be(Enc(n, v)) == v
  {
    if n > 0 {
      assert Enc(n, v)[..n - 1] == Enc(n - 1, v / 256);
      BeOfEnc(n - 1, v / 256);
    }
  }

  // Most significant byte first.
  lemma BeFour(a: Byte, b: Byte, c: Byte, d: Byte)
    ensures Be([a, b, c, d]) == 0x100_0000 * a + 0x1_0000 * b + 0x100 * c + d
  {
    BeNext([], a);
    BeNext([a], b);
    BeNext([a, b], c);
    BeNext([a, b, c], d);
    assert [a] + [b] == [a, b] && [a, b] + [c] == [a, b, c] && [a, b, c] + [d] == [a, b, c, d];
    assert [] + [a] == [a];
  }

  // What one byte more does to a field of any width.
  lemma BeNext(b: seq<Byte>, x: Byte)
    ensures Be([]) == 0 && Be(b + [x]) == 256 * Be(b) + x
  {
    assert (b + [x])[..|b|] == b;
  }

  lemma EncTwo(v: nat)
    requires v < 65536
    ensures Enc(2, v) == [v / 256, v % 256]
  {
    assert Enc(1, v / 256) == Enc(0, v / 256 / 256) + [v / 256 % 256];
  }

  // A big-endian 16-bit word.
  function Word(hi: Byte, lo: Byte): (w: nat)
    ensures w == hi * 256 + lo
  {
    assert [hi, lo][..1] == [hi] && Be([hi]) == Be([]) * 256 + hi;
    Be([hi, lo])
  }

  // The 16-bit field at an offset.
  function U16(b: seq<Byte>, i: nat): (v: nat)
    requires i + 2 <= |b|
    ensures v < 65536
  {
    Word(b[i], b[i + 1])
  }

  lemma U16OfEnc(v: nat)
    requires v < 65536
    ensures U16(Enc(2, v), 0) == v
  {
    EncTwo(v);
  }
}
