/** Octets as numbers, and numbers as six-bit digits. */
module Bytes {
  type Byte = x: int | 0 <= x < 0x100

  /** Division by 0x1000 and 0x40000 takes off six bits at a time. */
  lemma SixBits(cp: nat)
    ensures cp / 0x1000 == cp / 0x40 / 0x40 && cp / 0x40000 == cp / 0x1000 / 0x40
  {
  }

  lemma PutTakes(high: nat, low: nat)
    requires low < 0x40
    ensures (high * 0x40 + low) / 0x40 == high && (high * 0x40 + low) % 0x40 == low
  {
  }

  /** The six-bit digits of a number are the ones it was put together from. */
  lemma Digits(x: nat, b: nat, c: nat, d: nat)
    requires b < 0x40 && c < 0x40 && d < 0x40
    ensures var cp := x * 0x40000 + b * 0x1000 + c * 0x40 + d;
      cp / 0x40000 == x && cp / 0x1000 % 0x40 == b && cp / 0x40 % 0x40 == c && cp % 0x40 == d
  {
    var y := x * 0x40 + b;
    var z := y * 0x40 + c;
    SixBits(z * 0x40 + d);
    PutTakes(x, b);
    PutTakes(y, c);
    PutTakes(z, d);
    assert x * 0x40000 + b * 0x1000 + c * 0x40 + d == z * 0x40 + d;
  }
}
