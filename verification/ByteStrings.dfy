// Bytes, and numbers stored in them with the lowest byte first.
module ByteStrings {
  type Byte = b: int | 0 <= b < 256

  type Bytes = seq<Byte>

  const TWO_16: nat := 0x1_0000
  const TWO_31: nat := 0x8000_0000
  const TWO_32: nat := 0x1_0000_0000

  function Pow256(width: nat): nat {
    if width == 0 then 1 else 256 * Pow256(width - 1)
  }

  // The low bytes of n; anything above them is cut off.
  function Put(n: nat, width: nat): (b: Bytes)
    ensures |b| == width
  {
    if width == 0 then [] else [n % 256] + Put(n / 256, width - 1)
  }

  function Get(b: Bytes): nat {
    if b == [] then 0 else b[0] + 256 * Get(b[1..])
  }

  lemma {:induction false} GetPut(n: nat, width: nat)
    requires n < Pow256(width)
    ensures Get(Put(n, width)) == n
  {
    if width > 0 {
      assert n / 256 < Pow256(width - 1);
      GetPut(n / 256, width - 1);
      assert Put(n, width)[1..] == Put(n / 256, width - 1);
    }
  }

  // The two's complement reading of a stored number.
  function Signed(n: nat, modulus: nat): int
    requires n < modulus
  {
    if n < modulus / 2 then n else n - modulus
  }

  function Int32(n: int): int {
    Signed(n % TWO_32, TWO_32)
  }

  function Uint32(n: int): nat {
    n % TWO_32
  }

  lemma {:induction false} GetBound(b: Bytes)
    ensures Get(b) < Pow256(|b|)
  {
    if b != [] {
      GetBound(b[1..]);
    }
  }

  lemma FourBytes()
    ensures Pow256(4) == TWO_32 && Pow256(2) == TWO_16
  {
  }

  // Reading back a 32-bit number below 2^31, or a 16-bit one below 2^15.
  function GetInt32(b: Bytes): int
    requires |b| == 4
  {
    Int32(Get(b))
  }

  function GetInt16(b: Bytes): int
    requires |b| == 2
  {
    Signed(Get(b) % TWO_16, TWO_16)
  }

  lemma Int32RoundTrip(n: nat)
    requires n < TWO_31
    ensures GetInt32(Put(n, 4)) == n && Int32(n) == n && Uint32(n) == n
  {
    FourBytes();
    GetPut(n, 4);
  }

  lemma Int16RoundTrip(n: nat)
    requires n < TWO_16 / 2
    ensures GetInt16(Put(n, 2)) == n
  {
    FourBytes();
    GetPut(n, 2);
  }
}
