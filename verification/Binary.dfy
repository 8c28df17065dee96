/** Bytes and little-endian numbers, shared by the ledger encoding and the model-file reader. */
module Binary {
  type Byte = b: int | 0 <= b < 256

  type Bytes = seq<Byte>

  const TWO_32: int := 0x1_0000_0000
  const TWO_64: int := 0x1_0000_0000_0000_0000

  function Pow256(n: nat): nat { if n == 0 then 1 else 256 * Pow256(n - 1) }

  /** The low n bytes of x, least significant first. */
  function LittleEndian(x: nat, n: nat): (b: Bytes)
    ensures |b| == n
  {
    if n == 0 then [] else [x % 256] + LittleEndian(x / 256, n - 1)
  }

  function FromLittleEndian(b: Bytes): (x: nat) {
    if b == [] then 0 else b[0] + 256 * FromLittleEndian(b[1..])
  }

  lemma {:induction false} Decoded(x: nat, n: nat)
    requires x < Pow256(n)
    ensures FromLittleEndian(LittleEndian(x, n)) == x
  {
    if n > 0 {
      Decoded(x / 256, n - 1);
      assert LittleEndian(x, n)[1..] == LittleEndian(x / 256, n - 1);
    }
  }

  lemma {:induction false} Reencoded(b: Bytes)
    ensures FromLittleEndian(b) < Pow256(|b|)
    ensures LittleEndian(FromLittleEndian(b), |b|) == b
  {
    if b != [] {
      Reencoded(b[1..]);
      var x := FromLittleEndian(b);
      assert x % 256 == b[0] && x / 256 == FromLittleEndian(b[1..]);
      assert b == [b[0]] + b[1..];
    }
  }

  lemma {:induction false} LittleEndianInjective(x: nat, y: nat, n: nat)
    requires x < Pow256(n) && y < Pow256(n) && LittleEndian(x, n) == LittleEndian(y, n)
    ensures x == y
  {
    Decoded(x, n);
    Decoded(y, n);
  }

  lemma {:induction false} Widths()
    ensures Pow256(1) == 256 && Pow256(2) == 65536 && Pow256(4) == TWO_32 && Pow256(8) == TWO_64
  {
    assert Pow256(2) == 256 * Pow256(1);
    assert Pow256(3) == 256 * Pow256(2);
    assert Pow256(4) == 256 * Pow256(3);
    assert Pow256(5) == 256 * Pow256(4);
    assert Pow256(6) == 256 * Pow256(5);
    assert Pow256(7) == 256 * Pow256(6);
    assert Pow256(8) == 256 * Pow256(7);
  }
}
