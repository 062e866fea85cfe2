/** The least-significant-bit-first reader of the DEFLATE decoder, and the bit stream it reads.
    Shifts and masks are written out on naturals; `Get` keeps the accumulator below 2^(need + 8),
    so the 32-bit word of the program never overflows. */
module BitStream {
  import opened Base

  type bit = x: int | 0 <= x < 2

  function Pow2(n: nat): (r: nat)
    ensures r >= 1
  {
    if n == 0 then 1 else 2 * Pow2(n - 1)
  }

  /** v << n */
  function Shl(v: nat, n: nat): nat {
    if n == 0 then v else 2 * Shl(v, n - 1)
  }

  /** v >> n */
  function Shr(v: nat, n: nat): nat {
    if n == 0 then v else Shr(v / 2, n - 1)
  }

  /** v & ((1 << n) - 1) */
  function Low(v: nat, n: nat): (r: nat)
    ensures r < Pow2(n)
  {
    if n == 0 then 0 else v % 2 + 2 * Low(v / 2, n - 1)
  }

  lemma {:induction false} ShrLast(v: nat, n: nat)
    ensures Shr(v, n + 1) == Shr(v, n) / 2
  {
    if n > 0 { ShrLast(v / 2, n - 1); }
  }

  /** The n bits of b from p on, read as a number with the first bit least significant. */
  function Lsb(b: seq<bit>, p: nat, n: nat): (v: nat)
    requires p + n <= |b|
    ensures v < Pow2(n)
    decreases |b| - p
  {
    if n == 0 then 0 else b[p] + 2 * Lsb(b, p + 1, n - 1)
  }

  /** The n low bits of v, least significant first. */
  function LsbBits(v: nat, n: nat): (w: seq<bit>)
    ensures |w| == n
  {
    if n == 0 then [] else [v % 2] + LsbBits(v / 2, n - 1)
  }

  lemma {:induction false} LsbBitsAreRead(b: seq<bit>, p: nat, n: nat, v: nat)
    requires p + n <= |b|
    ensures v < Pow2(n) && b[p..p + n] == LsbBits(v, n) <==> v == Lsb(b, p, n)
    decreases n
  {
    if n > 0 {
      assert b[p..p + n] == [b[p]] + b[p + 1..p + n];
      assert b[p + 1..p + n] == b[p + 1..(p + 1) + (n - 1)];
      LsbBitsAreRead(b, p + 1, n - 1, v / 2);
      if b[p..p + n] == LsbBits(v, n) {
        assert b[p] == LsbBits(v, n)[0];
        assert b[p + 1..p + n] == LsbBits(v, n)[1..];
      }
    }
  }

  /** One more byte on top of the `cnt` bits already held: `buf |= v << cnt`. */
  lemma {:induction false} TakeByte(b: seq<bit>, p: nat, cnt: nat, v: nat)
    requires p + cnt + 8 <= |b| && v == Lsb(b, p + cnt, 8)
    ensures Lsb(b, p, cnt + 8) == Lsb(b, p, cnt) + Shl(v, cnt)
    decreases cnt
  {
    if cnt > 0 { TakeByte(b, p + 1, cnt - 1, v); }
  }

  /** The low m bits leave first and the rest stay: `buf & mask` and `buf >>= m`. */
  lemma {:induction false} TakeLow(b: seq<bit>, p: nat, m: nat, n: nat)
    requires p + m + n <= |b|
    ensures Low(Lsb(b, p, m + n), m) == Lsb(b, p, m)
    ensures Shr(Lsb(b, p, m + n), m) == Lsb(b, p + m, n)
    decreases m
  {
    if m > 0 {
      var rest := Lsb(b, p + 1, (m - 1) + n);
      assert Lsb(b, p, m + n) == b[p] + 2 * rest;
      assert (b[p] + 2 * rest) % 2 == b[p] && (b[p] + 2 * rest) / 2 == rest;
      TakeLow(b, p + 1, m - 1, n);
    }
  }

  /** Bit k of a byte string: byte k / 8, counting from its low end (RFC 1951, section 3.1.1). */
  function BitAt(input: seq<byte>, k: nat): bit
    requires k < 8 * |input|
  {
    Shr(input[k / 8], k % 8) % 2
  }

  function BitsOf(input: seq<byte>): (b: seq<bit>)
    ensures |b| == 8 * |input|
  {
    seq(8 * |input|, k requires 0 <= k < 8 * |input| => BitAt(input, k))
  }

  lemma LsbOfByte(input: seq<byte>, i: nat)
    requires i < |input|
    ensures Lsb(BitsOf(input), 8 * i, 8) == input[i]
  {
    ByteTail(input, i, 0);
  }

  lemma {:induction false} ByteTail(input: seq<byte>, i: nat, j: nat)
    requires i < |input| && j <= 8
    ensures Lsb(BitsOf(input), 8 * i + j, 8 - j) == Shr(input[i], j)
    decreases 8 - j
  {
    if j < 8 {
      ByteTail(input, i, j + 1);
      assert (8 * i + j) / 8 == i && (8 * i + j) % 8 == j;
      ShrLast(input[i], j);
    } else {
      ByteIsEightBits(input[i]);
    }
  }

  lemma ByteIsEightBits(v: byte)
    ensures Shr(v, 8) == 0
  {
    assert Shr(v, 8) == Shr(v / 2, 7) == Shr(v / 2 / 2, 6) == Shr(v / 2 / 2 / 2, 5);
    var h := v / 2 / 2 / 2 / 2;
    assert Shr(v / 2 / 2 / 2, 5) == Shr(h, 4) == Shr(h / 2, 3) == Shr(h / 2 / 2, 2) == Shr(h / 2 / 2 / 2, 1);
  }

  /** The reader. `pos` is the next input byte; `buf` holds `cnt` bits already taken from the input. */
  class Bits {
    const input: seq<byte>
    ghost const bits: seq<bit>
    var pos: nat
    var buf: nat
    var cnt: nat
    var err: bool

    /** The bits held are the ones of the stream just before byte `pos`. */
    ghost predicate Holds()
      reads this
    {
      && |bits| == 8 * |input|
      && (forall i | 0 <= i < |input| :: Lsb(bits, 8 * i, 8) == input[i])
      && pos <= |input|
      && cnt <= 8 * pos
      && buf == Lsb(bits, 8 * pos - cnt, cnt)
    }

    ghost predicate Valid()
      reads this
    {
      Holds() && (!err ==> cnt < 8)
    }

    /** How many bits of the stream have been consumed. */
    ghost function At(): nat
      requires Holds()
      reads this
    {
      8 * pos - cnt
    }

    constructor (bytes: seq<byte>)
      ensures Valid() && input == bytes && bits == BitsOf(bytes) && At() == 0 && !err
    {
      input := bytes;
      bits := BitsOf(bytes);
      pos, buf, cnt, err := 0, 0, 0, false;
      forall i | 0 <= i < |bytes| ensures Lsb(BitsOf(bytes), 8 * i, 8) == bytes[i] {
        LsbOfByte(bytes, i);
      }
    }

    /** The next `need` bits as a number, or 0 and a sticky error when the stream ends first. */
    method Get(need: nat) returns (v: nat)
      requires Valid()
      modifies this
      ensures Valid()
      ensures err == (old(err) || old(At()) + need > |bits|)
      ensures old(At()) + need <= |bits| ==> v == Lsb(bits, old(At()), need) && At() == old(At()) + need
      ensures old(At()) + need > |bits| ==> v == 0 && At() == old(At())
      ensures v < Pow2(need)
    {
      hide Lsb, Low, Shr;
      Fill(need);
      if cnt < need { err := true; return 0; }
      ghost var p, left := At(), cnt - need;
      TakeLow(bits, p, need, left);
      v := Low(buf, need);
      buf := Shr(buf, need);
      cnt := cnt - need;
      assert v == Lsb(bits, p, need) && buf == Lsb(bits, p + need, left) && At() == p + need;
    }

    /** The byte-fetching loop of `Get`: take bytes until `need` bits are held or none is left. */
    method Fill(need: nat)
      requires Holds()
      modifies this`pos, this`buf, this`cnt
      ensures Holds() && At() == old(At())
      ensures cnt < need ==> pos == |input|
      ensures cnt < need + 8 || cnt == old(cnt)
    {
      hide Lsb, Shl;
      while cnt < need && pos < |input|
        invariant Holds() && At() == old(At())
        invariant cnt < need + 8 || cnt == old(cnt)
        decreases |input| - pos
      {
        ghost var p := At();
        TakeByte(bits, p, cnt, input[pos]);
        buf := buf + Shl(input[pos], cnt);
        pos := pos + 1;
        cnt := cnt + 8;
        assert buf == Lsb(bits, p, cnt) && 8 * pos - cnt == p;
      }
    }

    /** Skip to the next byte boundary, giving back whole bytes already taken. */
    method Align()
      requires Valid() && !err
      modifies this
      ensures Valid() && !err && cnt == 0
      ensures At() == (old(At()) + 7) / 8 * 8
    {
      pos := pos - cnt / 8;
      buf, cnt := 0, 0;
    }

    /** Step over n bytes of an aligned stream. */
    method Skip(n: nat)
      requires Valid() && cnt == 0 && pos + n <= |input|
      modifies this`pos
      ensures Valid() && pos == old(pos) + n
    {
      pos := pos + n;
    }
  }
}
