/** 32-bit words as bytes (encoding/binary). Numbers that do not fit are truncated, as uint32 conversion does. */
module Words {
  import opened Basics

  const WORD := 0x1_0000_0000

  function BigEndian32(n: nat): (b: Bytes)
    ensures |b| == 4
  {
    [n / 0x100_0000 % 256, n / 0x1_0000 % 256, n / 256 % 256, n % 256]
  }

  function FromBigEndian32(b: Bytes): (n: nat)
    requires |b| == 4
    ensures n < WORD
  {
    (((b[0] as int) * 256 + b[1]) * 256 + b[2]) * 256 + b[3]
  }

  lemma WordRoundTrip(n: nat)
    ensures FromBigEndian32(BigEndian32(n)) == n % WORD
  {
    var q, q2, q3 := n / 256, n / 0x1_0000, n / 0x100_0000;
    assert q / 256 == q2 && q2 / 256 == q3;
  }

  lemma LastDigit(x: int, y: int, a: Byte, b: Byte)
    requires x * 256 + a == y * 256 + b
    ensures x == y && a == b
  {
  }

  lemma WordInjective(a: Bytes, b: Bytes)
    requires |a| == |b| == 4
    requires FromBigEndian32(a) == FromBigEndian32(b)
    ensures a == b
  {
    var x, y := ((a[0] as int) * 256 + a[1]) * 256 + a[2], ((b[0] as int) * 256 + b[1]) * 256 + b[2];
    LastDigit(x, y, a[3], b[3]);
    LastDigit((a[0] as int) * 256 + a[1], (b[0] as int) * 256 + b[1], a[2], b[2]);
    LastDigit(a[0] as int, b[0] as int, a[1], b[1]);
  }

  function LittleEndian32(n: nat): (b: Bytes)
    ensures |b| == 4
  {
    [n % 256, n / 256 % 256, n / 0x1_0000 % 256, n / 0x100_0000 % 256]
  }

  function FromLittleEndian32(b: Bytes): (n: nat)
    requires |b| == 4
    ensures n < WORD
  {
    FromBigEndian32([b[3], b[2], b[1], b[0]])
  }

  lemma LittleRoundTrip(n: nat)
    ensures FromLittleEndian32(LittleEndian32(n)) == n % WORD
  {
    WordRoundTrip(n);
  }

  lemma LittleInjective(a: Bytes, b: Bytes)
    requires |a| == |b| == 4
    requires FromLittleEndian32(a) == FromLittleEndian32(b)
    ensures a == b
  {
    WordInjective([a[3], a[2], a[1], a[0]], [b[3], b[2], b[1], b[0]]);
  }
}
