/** Little-endian integers in byte sequences. */
module Bytes {

  type Byte = b: int | 0 <= b < 256

  function Pow256(w: nat): (p: nat)
    ensures p >= 1
  {
    if w == 0 then 1 else 256 * Pow256(w - 1)
  }

  function ToLE(n: nat, w: nat): (s: seq<Byte>)
    ensures |s| == w
  {
    if w == 0 then [] else [n % 256] + ToLE(n / 256, w - 1)
  }

  function FromLE(s: seq<Byte>): nat
  {
    if s == [] then 0 else s[0] + 256 * FromLE(s[1..])
  }

  lemma {:induction false} ReadBack(n: nat, w: nat)
    requires n < Pow256(w)
    ensures FromLE(ToLE(n, w)) == n
  {
    if w > 0 {
      ReadBack(n / 256, w - 1);
      assert ToLE(n, w)[1..] == ToLE(n / 256, w - 1);
    }
  }

  lemma {:induction false} WriteBack(s: seq<Byte>)
    ensures ToLE(FromLE(s), |s|) == s && FromLE(s) < Pow256(|s|)
  {
    if s != [] {
      WriteBack(s[1..]);
      var n := FromLE(s);
      assert n % 256 == s[0] && n / 256 == FromLE(s[1..]);
      assert s == [s[0]] + s[1..];
    }
  }

  lemma Widths()
    ensures Pow256(4) == 0x1_0000_0000 && Pow256(8) == 0x1_0000_0000_0000_0000
  {
    assert Pow256(1) == 256;
    assert Pow256(2) == 0x1_0000;
    assert Pow256(3) == 0x100_0000;
    assert Pow256(4) == 0x1_0000_0000;
    assert Pow256(5) == 0x100_0000_0000;
    assert Pow256(6) == 0x1_0000_0000_0000;
    assert Pow256(7) == 0x100_0000_0000_0000;
  }
}
