/** `from_be_bytes` and `to_be_bytes` for unsigned integers of any width. */
module BigEndian {
  import opened Prelude

  function Pow256(w: nat): (p: nat)
    ensures p > 0
  {
    if w == 0 then 1 else 256 * Pow256(w - 1)
  }

  function FromBE(s: seq<byte>): nat {
    if s == [] then 0 else 256 * FromBE(s[..|s| - 1]) + s[|s| - 1]
  }

  function ToBE(n: nat, w: nat): (s: seq<byte>)
    ensures |s| == w
  {
    if w == 0 then [] else ToBE(n / 256, w - 1) + [n % 256]
  }

  /** Reading back what was written restores every integer that fits the width. */
  lemma {:induction false} FromTo(n: nat, w: nat)
    requires n < Pow256(w)
    ensures FromBE(ToBE(n, w)) == n
  {
    if w > 0 {
      FromTo(n / 256, w - 1);
      assert ToBE(n, w)[..w - 1] == ToBE(n / 256, w - 1);
    }
  }

  /** Writing back what was read restores the bytes: the representation is unique. */
  lemma {:induction false} ToFrom(s: seq<byte>)
    ensures FromBE(s) < Pow256(|s|)
    ensures ToBE(FromBE(s), |s|) == s
  {
    if s != [] {
      ToFrom(s[..|s| - 1]);
      assert s == s[..|s| - 1] + [s[|s| - 1]];
    }
  }

  /** The first byte is the most significant one. */
  lemma {:induction false} FirstByteIsMostSignificant(b: byte, s: seq<byte>)
    ensures FromBE([b] + s) == b * Pow256(|s|) + FromBE(s)
  {
    var whole := [b] + s;
    if s == [] {
      assert whole[..0] == [] && FromBE([]) == 0;
    } else {
      var n := |s| - 1;
      assert whole[..|whole| - 1] == [b] + s[..n];
      FirstByteIsMostSignificant(b, s[..n]);
      assert b * (256 * Pow256(n)) == 256 * (b * Pow256(n));
    }
  }

  lemma Widths()
    ensures Pow256(1) == 256 && Pow256(2) == 0x1_0000 && Pow256(4) == U32_MODULUS && Pow256(8) == U64_MODULUS
  {
    assert Pow256(3) == 0x100_0000;
    assert Pow256(4) == 0x1_0000_0000;
    assert Pow256(6) == 0x1_0000_0000_0000;
  }
}
