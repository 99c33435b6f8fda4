/** The unsigned integer types of C that the model uses, and the lesser and the greater of two numbers. */
module Numbers {
  type byte = n: int | 0 <= n < 256
  type uint32 = n: int | 0 <= n < 0x1_0000_0000
  type uint64 = n: int | 0 <= n < 0x1_0000_0000_0000_0000

  function Min(a: int, b: int): int { if a < b then a else b }
  function Max(a: int, b: int): int { if a < b then b else a }
}
