/** Bit positions within a byte and the single-bit test (`util` of the png_spec library). */
module BitUtil {
  import opened Wire

  /** A bit position; `Zero` is the least significant bit. */
  datatype Bit = Zero | One | Two | Three | Four | Five | Six | Seven

  const MostSig: Bit := Seven

  /** `From<Bit> for u8`: the bits numbered from the least significant, `Zero` to `Seven`. */
  function Index(bit: Bit): (k: u8)
    ensures k < 8 && [Zero, One, Two, Three, Four, Five, Six, Seven][k] == bit
  {
    match bit
    case Zero => 0
    case One => 1
    case Two => 2
    case Three => 3
    case Four => 4
    case Five => 5
    case Six => 6
    case Seven => 7
  }

  function Pow2(k: nat): (p: nat)
    ensures p >= 1
  {
    if k == 0 then 1 else 2 * Pow2(k - 1)
  }

  /** `(byte >> k) & 1 != 0`, the shift written as division by 2^k. */
  predicate IsSetAt(byte: u8, k: nat) {
    (byte as int / Pow2(k)) % 2 != 0
  }

  /** `get_bit`. */
  predicate GetBit(byte: u8, bit: Bit) {
    IsSetAt(byte, Index(bit) as nat)
  }

  /** Distinct positions are distinct bits. */
  lemma IndexInjective(a: Bit, b: Bit)
    ensures Index(a) == Index(b) ==> a == b
  {
  }

  /** The most significant bit is set exactly on the upper half of the byte range. */
  lemma MostSigBit(byte: u8)
    ensures GetBit(byte, MostSig) <==> byte >= 0x80
  {
    assert Pow2(7) == 0x80;
  }

  /** A byte is determined by its eight bits. */
  lemma BitsDetermineByte(a: u8, b: u8)
    requires forall bit: Bit :: GetBit(a, bit) == GetBit(b, bit)
    ensures a == b
  {
    var bits := [Zero, One, Two, Three, Four, Five, Six, Seven];
    forall k | 0 <= k < 8
      ensures a as int / Pow2(k) % 2 == b as int / Pow2(k) % 2
    {
      assert Index(bits[k]) as nat == k;
      assert GetBit(a, bits[k]) == GetBit(b, bits[k]);
    }
    assert Pow2(1) == 2 && Pow2(2) == 4 && Pow2(3) == 8 && Pow2(4) == 16;
    assert Pow2(5) == 32 && Pow2(6) == 64 && Pow2(7) == 128;
    BinaryDigits(a);
    BinaryDigits(b);
  }

  lemma BinaryDigits(x: u8)
    ensures x as int == x as int % 2 + 2 * (x as int / 2 % 2) + 4 * (x as int / 4 % 2) + 8 * (x as int / 8 % 2)
                        + 16 * (x as int / 16 % 2) + 32 * (x as int / 32 % 2) + 64 * (x as int / 64 % 2) + 128 * (x as int / 128 % 2)
  {
    var n := x as int;
    LowDigits(n);
    HighDigits(n / 16);
    assert n / 32 == n / 16 / 2 && n / 64 == n / 16 / 4 && n / 128 == n / 16 / 8;
  }

  /** The four low binary digits of `n`, and the rest. */
  lemma LowDigits(n: int)
    requires 0 <= n
    ensures n == n % 2 + 2 * (n / 2 % 2) + 4 * (n / 4 % 2) + 8 * (n / 8 % 2) + 16 * (n / 16)
  {
    var q1, q2, q3, q4 := n / 2, n / 4, n / 8, n / 16;
    assert q2 == q1 / 2 && q3 == q2 / 2 && q4 == q3 / 2;
  }

  /** A number below 16 is its four binary digits. */
  lemma HighDigits(n: int)
    requires 0 <= n < 16
    ensures n == n % 2 + 2 * (n / 2 % 2) + 4 * (n / 4 % 2) + 8 * (n / 8 % 2)
  {
  }
}
