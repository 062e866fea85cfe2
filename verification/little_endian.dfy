/** Numbers as bytes, the least significant first. */
module LittleEndian {
  import opened Base

  function PutU32(x: nat): (w: seq<byte>)
    ensures |w| == 4
  {
    [x % 256, x / 0x100 % 256, x / 0x1_0000 % 256, x / 0x100_0000 % 256]
  }

  function PutU64(x: nat): (w: seq<byte>)
    ensures |w| == 8
  {
    PutU32(x % 0x1_0000_0000) + PutU32(x / 0x1_0000_0000)
  }

  function GetU32(d: seq<byte>, p: nat): (x: nat)
    requires p + 4 <= |d|
    ensures x < 0x1_0000_0000
  {
    (d[p] as int) + 0x100 * (d[p + 1] as int) + 0x1_0000 * (d[p + 2] as int) + 0x100_0000 * (d[p + 3] as int)
  }

  function GetU64(d: seq<byte>, p: nat): nat
    requires p + 8 <= |d|
  {
    GetU32(d, p) + 0x1_0000_0000 * GetU32(d, p + 4)
  }

  /** A number put together from bytes, the least significant first. */
  lemma BytesAre(a: byte, b: byte, c: byte, d: byte)
    ensures PutU32(a + 0x100 * b + 0x1_0000 * c + 0x100_0000 * d) == [a, b, c, d]
  {
    var x := a + 0x100 * b + 0x1_0000 * c + 0x100_0000 * d;
    assert x / 0x100 == b + 0x100 * c + 0x1_0000 * d && x / 0x1_0000 == c + 0x100 * d && x / 0x100_0000 == d;
  }

  lemma Digits(x: nat)
    requires x < 0x1_0000_0000
    ensures x == x % 256 + 0x100 * (x / 0x100 % 256) + 0x1_0000 * (x / 0x1_0000 % 256) + 0x100_0000 * (x / 0x100_0000 % 256)
  {
    var a, b, c := x / 0x100, x / 0x1_0000, x / 0x100_0000;
    assert x == x % 256 + 0x100 * a;
    assert b == a / 0x100 && a == a % 256 + 0x100 * b;
    assert c == b / 0x100 && b == b % 256 + 0x100 * c;
    assert c % 256 == c;
  }

  lemma U32RoundTrip(d: seq<byte>, p: nat, x: nat)
    requires p + 4 <= |d| && d[p..p + 4] == PutU32(x) && x < 0x1_0000_0000
    ensures GetU32(d, p) == x
  {
    Digits(x);
    assert d[p] == d[p..p + 4][0] && d[p + 1] == d[p..p + 4][1];
    assert d[p + 2] == d[p..p + 4][2] && d[p + 3] == d[p..p + 4][3];
  }

  /** And every four bytes are those of the number they spell, as are every eight. */
  lemma U32BackAgain(d: seq<byte>, p: nat)
    requires p + 4 <= |d|
    ensures PutU32(GetU32(d, p)) == d[p..p + 4]
  {
    BytesAre(d[p], d[p + 1], d[p + 2], d[p + 3]);
    assert d[p..p + 4] == [d[p], d[p + 1], d[p + 2], d[p + 3]];
  }

  lemma U64BackAgain(d: seq<byte>, p: nat)
    requires p + 8 <= |d|
    ensures PutU64(GetU64(d, p)) == d[p..p + 8]
  {
    U32BackAgain(d, p);
    U32BackAgain(d, p + 4);
    var lo, hi := GetU32(d, p), GetU32(d, p + 4);
    hide PutU32, GetU32;
    assert (lo + 0x1_0000_0000 * hi) % 0x1_0000_0000 == lo && (lo + 0x1_0000_0000 * hi) / 0x1_0000_0000 == hi;
    assert d[p..p + 8] == d[p..p + 4] + d[p + 4..p + 8];
  }

  lemma U64RoundTrip(d: seq<byte>, p: nat, x: nat)
    requires p + 8 <= |d| && d[p..p + 8] == PutU64(x) && x < 0x1_0000_0000_0000_0000
    ensures GetU64(d, p) == x
  {
    hide PutU32, GetU32;
    assert d[p..p + 4] == d[p..p + 8][..4] && d[p + 4..p + 8] == d[p..p + 8][4..];
    U32RoundTrip(d, p, x % 0x1_0000_0000);
    U32RoundTrip(d, p + 4, x / 0x1_0000_0000);
  }
}
