/** Go's 64-bit integers on top of the whole numbers. */
module MachineIntegers {

  const WORD := 0x1_0000_0000_0000_0000

  /** Conversion to uint64, and uint64 arithmetic. */
  function U64(x: int): (r: int)
    ensures 0 <= r < WORD
  {
    x % 0x1_0000_0000_0000_0000
  }

  /** Conversion to int64, and int64 arithmetic. */
  function S64(x: int): (r: int)
    ensures -WORD / 2 <= r < WORD / 2 && U64(r) == U64(x)
  {
    if U64(x) < 0x8000_0000_0000_0000 then U64(x) else U64(x) - 0x1_0000_0000_0000_0000
  }

  type Int64 = x: int | -0x8000_0000_0000_0000 <= x < 0x8000_0000_0000_0000

  lemma U64Shift(x: int, k: int)
    ensures U64(x + k * WORD) == U64(x)
  {}

  /** Equal on 64 bits means apart by a multiple of the word. */
  lemma U64Equal(x: int, y: int)
    ensures U64(x) == U64(y) ==> x - y == (x / WORD - y / WORD) * WORD
  {}

  lemma U64AddsLeft(x: int, y: int)
    ensures U64(U64(x) + y) == U64(x + y)
  {
    var k := x / WORD;
    assert U64(x) + y == x + y + -k * WORD;
    U64Shift(x + y, -k);
  }

  lemma U64Subtracts(x: int, y: int)
    ensures U64(x - U64(y)) == U64(x - y)
  {
    var k := y / WORD;
    assert x - U64(y) == x - y + k * WORD;
    U64Shift(x - y, k);
  }

  /** Unsigned arithmetic may wrap early. */
  lemma U64Adds(x: int, y: int)
    ensures U64(U64(x) + U64(y)) == U64(x + y) && U64(U64(x) + y) == U64(x + y) && U64(U64(x) - U64(y)) == U64(x - y)
  {
    U64AddsLeft(x, y);
    U64AddsLeft(x, U64(y));
    U64AddsLeft(y, x);
    U64AddsLeft(x, -U64(y));
    U64Subtracts(x, y);
  }

  /** Signed arithmetic may wrap early as well. */
  lemma S64Adds(x: int, y: int)
    ensures S64(S64(x) + S64(y)) == S64(x + y)
  {
    U64Adds(S64(x), S64(y));
    U64Adds(x, y);
  }

  lemma S64AddsOne(x: int, y: Int64)
    ensures S64(S64(x) + y) == S64(x + y)
  {
    S64Adds(x, y);
    assert S64(y) == y;
  }
}
