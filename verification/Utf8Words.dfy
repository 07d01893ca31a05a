/** Eight bytes at a time. */
module Utf8Words {
  import opened Octets

  /** Eight bytes as one little-endian word. */
  function UnalignedLoad64(data: Bytes, i: nat): bv64
    requires i + 8 <= |data|
  {
    (data[i] as bv64) | (data[i + 1] as bv64 << 8) | (data[i + 2] as bv64 << 16) | (data[i + 3] as bv64 << 24) |
    (data[i + 4] as bv64 << 32) | (data[i + 5] as bv64 << 40)
    | (data[i + 6] as bv64 << 48) | (data[i + 7] as bv64 << 56)
  }

  lemma WordBits(b0: byte, b1: byte, b2: byte, b3: byte, b4: byte, b5: byte, b6: byte, b7: byte)
    ensures
      (((b0 as bv64) | (b1 as bv64 << 8) | (b2 as bv64 << 16) | (b3 as bv64 << 24) |
        (b4 as bv64 << 32) | (b5 as bv64 << 40) | (b6 as bv64 << 48) | (b7 as bv64 << 56)) & 0x8080808080808080 == 0)
      <==> b0 < 128 && b1 < 128 && b2 < 128 && b3 < 128 && b4 < 128 && b5 < 128 && b6 < 128 && b7 < 128
  {
  }

  /** The word test passes exactly on eight ASCII bytes. */
  lemma WordTest(data: Bytes, i: nat)
    requires i + 8 <= |data|
    ensures UnalignedLoad64(data, i) & 0x8080808080808080 == 0 <==> forall j | i <= j < i + 8 :: data[j] < 128
  {
    WordBits(data[i], data[i + 1], data[i + 2], data[i + 3], data[i + 4], data[i + 5], data[i + 6], data[i + 7]);
  }
}
