/** The copies of the signal processor's DMA engine, chunk by chunk: its memory wraps at 4 KB, the payload ring
    at 1 MB, and RDRAM ends where the chips end. */
module DmaCopy {
  import opened Base
  import opened DmaSpec

  const SP_N := 0x1000
  const PAY_N := 0x10_0000

  // ---- what is read and where it waits ----

  /** n bytes of signal-processor memory from `off` on, around its end. */
  function SpBytes(sp: seq<byte>, off: nat, n: nat): (b: seq<byte>)
    requires |sp| == SP_N
    ensures |b| == n && forall j | 0 <= j < n :: b[j] == sp[(off + j) % SP_N]
  {
    seq(n, j requires 0 <= j < n => sp[(off + j) % SP_N])
  }

  lemma SpBytesJoin(sp: seq<byte>, off: nat, on: nat, n: nat, m: nat)
    requires |sp| == SP_N && on % SP_N == (off + n) % SP_N
    ensures SpBytes(sp, off, n) + SpBytes(sp, on, m) == SpBytes(sp, off, n + m)
  {
    forall j | 0 <= j < m ensures SpBytes(sp, on, m)[j] == SpBytes(sp, off, n + m)[n + j] {
      SameOffset(on, off + n, j);
    }
  }

  lemma SameOffset(a: nat, b: nat, j: nat)
    requires a % SP_N == b % SP_N
    ensures (a + j) % SP_N == (b + j) % SP_N
  {
  }

  lemma SpChunk(sp: seq<byte>, off: nat, n: nat)
    requires |sp| == SP_N && off % SP_N + n <= SP_N
    ensures sp[off % SP_N..off % SP_N + n] == SpBytes(sp, off, n)
  {
  }

  /** The byte that stream position q has in the ring. */
  function At(pay: seq<byte>, q: int): byte
    requires |pay| == PAY_N
  {
    pay[q % PAY_N]
  }

  ghost predicate InRing(pay: seq<byte>, from: int, b: seq<byte>)
    requires |pay| == PAY_N
  {
    forall k | 0 <= k < |b| :: At(pay, from + k) == b[k]
  }

  /** Nothing changed at the ring positions from stream position lo up to hi. */
  ghost predicate Kept(was: seq<byte>, now: seq<byte>, lo: int, hi: int)
    requires |was| == |now| == PAY_N
  {
    forall q | lo <= q < hi :: At(now, q) == At(was, q)
  }

  lemma RingChunk(was: seq<byte>, w: nat, b: seq<byte>)
    requires |was| == PAY_N && w % PAY_N + |b| <= PAY_N
    ensures var now := was[..w % PAY_N] + b + was[w % PAY_N + |b|..];
            InRing(now, w, b) && Kept(was, now, w + |b| - PAY_N, w)
  {
    var wo := w % PAY_N;
    var now := was[..wo] + b + was[wo + |b|..];
    forall k | 0 <= k < |b| ensures At(now, w + k) == b[k] { Lap(w, k); }
    forall q | w + |b| - PAY_N <= q < w ensures At(now, q) == At(was, q) { Before(w, |b|, q); }
  }

  lemma Lap(w: nat, k: nat)
    requires w % PAY_N + k < PAY_N
    ensures (w + k) % PAY_N == w % PAY_N + k
  {
  }

  lemma Before(w: nat, n: nat, q: int)
    requires w + n - PAY_N <= q < w && w % PAY_N + n <= PAY_N
    ensures q % PAY_N < w % PAY_N || q % PAY_N >= w % PAY_N + n
  {
  }

  lemma InRingJoin(pay: seq<byte>, from: int, a: seq<byte>, b: seq<byte>)
    requires |pay| == PAY_N && InRing(pay, from, a) && InRing(pay, from + |a|, b)
    ensures InRing(pay, from, a + b)
  {
    hide At;
    forall k | |a| <= k < |a| + |b| ensures At(pay, from + k) == (a + b)[k] {
      assert At(pay, from + |a| + (k - |a|)) == b[k - |a|];
    }
  }

  lemma InRingKept(was: seq<byte>, now: seq<byte>, lo: int, hi: int, from: int, b: seq<byte>)
    requires |was| == |now| == PAY_N && Kept(was, now, lo, hi)
    requires InRing(was, from, b) && lo <= from && from + |b| <= hi
    ensures InRing(now, from, b)
  {
    hide At;
  }

  lemma RingSlice(pay: seq<byte>, r: nat, n: nat, b: seq<byte>)
    requires |pay| == PAY_N && r % PAY_N + n <= PAY_N && n <= |b| && InRing(pay, r, b)
    ensures pay[r % PAY_N..r % PAY_N + n] == b[..n] && InRing(pay, r + n, b[n..])
  {
    forall k | 0 <= k < n ensures pay[r % PAY_N + k] == b[k] {
      Lap(r, k);
      assert At(pay, r + k) == b[k];
    }
    forall k | 0 <= k < |b| - n ensures At(pay, r + n + k) == b[n..][k] {
      assert At(pay, r + (n + k)) == b[n + k];
    }
  }

  // ---- the copies ----

  lemma PutJoin(mem: seq<byte>, a: nat, b: seq<byte>, c: seq<byte>)
    ensures Put(Put(mem, a, b), a + |b|, c) == Put(mem, a, b + c)
  {
    var l, r := Put(Put(mem, a, b), a + |b|, c), Put(mem, a, b + c);
    forall i: nat | i < |mem| ensures l[i] == r[i] {
      PutAt(mem, a, b, i);
      PutAt(Put(mem, a, b), a + |b|, c, i);
      PutAt(mem, a, b + c, i);
    }
  }

  /** A chunk into RDRAM, cut where the chips end. */
  method PutChunk(rdram: array<byte>, d: nat, src: seq<byte>)
    modifies rdram
    ensures rdram[..] == Put(old(rdram[..]), d, src)
  {
    if d < rdram.Length {
      var m := |src|;
      if m > rdram.Length - d { m := rdram.Length - d; }
      CopyInto(rdram, d, src[..m]);
    }
  }

  /** One row from signal-processor memory straight into RDRAM. */
  method SpRowToRam(rdram: array<byte>, sp: array<byte>, memOff: nat, dram: nat, length: nat)
    requires sp.Length == SP_N && rdram != sp
    modifies rdram
    ensures rdram[..] == Put(old(rdram[..]), dram, SpBytes(sp[..], memOff, length))
  {
    hide Put, SpBytes;
    var i := 0;
    NothingPut(rdram[..], dram, sp[..], memOff);
    while i < length
      invariant i <= length
      invariant rdram[..] == Put(old(rdram[..]), dram, SpBytes(sp[..], memOff, i))
    {
      var mo := (memOff + i) % SP_N;
      var d := dram + i;
      var n := length - i;
      if n > SP_N - mo { n := SP_N - mo; }
      if d < rdram.Length && n > rdram.Length - d { n := rdram.Length - d; }
      SpChunk(sp[..], memOff + i, n);
      SpBytesJoin(sp[..], memOff, memOff + i, i, n);
      PutJoin(old(rdram[..]), dram, SpBytes(sp[..], memOff, i), SpBytes(sp[..], memOff + i, n));
      PutChunk(rdram, d, sp[mo..mo + n]);
      i := i + n;
    }
  }

  lemma NothingPut(mem: seq<byte>, dram: nat, sp: seq<byte>, off: nat)
    requires |sp| == SP_N
    ensures Put(mem, dram, SpBytes(sp, off, 0)) == mem
  {
  }

  /** One row from signal-processor memory into the payload ring at stream position w. */
  method SpRowToRing(pay: array<byte>, sp: array<byte>, memOff: nat, length: nat, w: nat)
    requires sp.Length == SP_N && pay.Length == PAY_N && pay != sp && length <= PAY_N
    modifies pay
    ensures InRing(pay[..], w, SpBytes(sp[..], memOff, length))
    ensures Kept(old(pay[..]), pay[..], w + length - PAY_N, w)
  {
    hide SpBytes, InRing, Kept;
    var i := 0;
    EmptyRow(pay[..], sp[..], memOff, w);
    while i < length
      invariant i <= length
      invariant InRing(pay[..], w, SpBytes(sp[..], memOff, i))
      invariant Kept(old(pay[..]), pay[..], w + i - PAY_N, w)
    {
      var mo := (memOff + i) % SP_N;
      var n := length - i;
      if n > SP_N - mo { n := SP_N - mo; }
      var wo := (w + i) % PAY_N;
      if n > PAY_N - wo { n := PAY_N - wo; }
      SpChunk(sp[..], memOff + i, n);
      SpBytesJoin(sp[..], memOff, memOff + i, i, n);
      RowGrows(old(pay[..]), pay[..], w, SpBytes(sp[..], memOff, i), sp[mo..mo + n]);
      CopyInto(pay, wo, sp[mo..mo + n]);
      i := i + n;
    }
  }

  lemma EmptyRow(pay: seq<byte>, sp: seq<byte>, off: nat, w: nat)
    requires |sp| == SP_N && |pay| == PAY_N
    ensures InRing(pay, w, SpBytes(sp, off, 0)) && Kept(pay, pay, w - PAY_N, w)
  {
  }

  lemma RowGrows(first: seq<byte>, was: seq<byte>, w: nat, a: seq<byte>, b: seq<byte>)
    requires |first| == |was| == PAY_N && |a| + |b| <= PAY_N && (w + |a|) % PAY_N + |b| <= PAY_N
    requires InRing(was, w, a) && Kept(first, was, w + |a| - PAY_N, w)
    ensures var wo := (w + |a|) % PAY_N;
            var now := was[..wo] + b + was[wo + |b|..];
            InRing(now, w, a + b) && Kept(first, now, w + |a| + |b| - PAY_N, w)
  {
    var wo := (w + |a|) % PAY_N;
    var now := was[..wo] + b + was[wo + |b|..];
    hide At;
    RingChunk(was, w + |a|, b);
    InRingKept(was, now, w + |a| + |b| - PAY_N, w + |a|, w, a);
    InRingJoin(now, w, a, b);
  }

  /** One row of a waiting transfer from the payload ring into RDRAM. */
  method RingRowToRam(rdram: array<byte>, pay: array<byte>, r: nat, dram: nat, ghost row: seq<byte>, length: nat)
    requires pay.Length == PAY_N && pay != rdram && |row| == length && InRing(pay[..], r, row)
    modifies rdram
    ensures rdram[..] == Put(old(rdram[..]), dram, row)
  {
    hide Put, InRing;
    var i := 0;
    assert row[0..] == row && row[..0] == [];
    NothingLanded(rdram[..], dram);
    while i < length
      invariant i <= length && InRing(pay[..], r + i, row[i..])
      invariant rdram[..] == Put(old(rdram[..]), dram, row[..i])
    {
      var ro := (r + i) % PAY_N;
      var n := length - i;
      if n > PAY_N - ro { n := PAY_N - ro; }
      RingSlice(pay[..], r + i, n, row[i..]);
      assert row[i..][n..] == row[i + n..] && row[..i] + row[i..][..n] == row[..i + n];
      PutJoin(old(rdram[..]), dram, row[..i], row[i..][..n]);
      PutChunk(rdram, dram + i, pay[ro..ro + n]);
      i := i + n;
    }
    assert row[..i] == row;
  }

  lemma NothingLanded(mem: seq<byte>, dram: nat)
    ensures Put(mem, dram, []) == mem
  {
  }

  // ---- whole transfers ----

  lemma TimesOneMore(k: nat, n: nat)
    ensures Times(k, n + 1) == Times(k, n) + k
  {
  }

  lemma TimesNone(k: nat)
    ensures Times(k, 0) == 0
  {
  }

  lemma NextRow(sp: seq<byte>, off: nat, length: nat, rest: nat)
    requires |sp| == SP_N
    ensures var b := SpBytes(sp, off, length + rest);
            b[..length] == SpBytes(sp, off, length) && b[length..] == SpBytes(sp, (off + length) % SP_N, rest)
  {
    hide SpBytes;
    SpBytesJoin(sp, off, (off + length) % SP_N, length, rest);
  }

  lemma LandRow(mem: seq<byte>, x: Xfer)
    requires 0 < x.length <= |x.bytes|
    ensures Land(mem, x) == Land(Put(mem, x.dram, x.bytes[..x.length]), Rest(x))
  {
  }

  /** The immediate path: every row straight into RDRAM. The engine's two addresses move on. */
  method SpRowsToRam(rdram: array<byte>, sp: array<byte>, memOff: nat, dram: nat, length: nat, count: nat, skip: nat)
      returns (memEnd: nat, dramEnd: nat)
    requires sp.Length == SP_N && rdram != sp && length > 0 && memOff < SP_N
    modifies rdram
    ensures rdram[..] == Land(old(rdram[..]), Xfer(dram, length, skip, SpBytes(sp[..], memOff, Times(length, count))))
    ensures memEnd == (memOff + Times(length, count)) % SP_N && dramEnd == dram + Times(length + skip, count)
  {
    hide SpBytes, Put, Land;
    memEnd, dramEnd := memOff, dram;
    var c := 0;
    while c < count
      invariant c <= count && memEnd == (memOff + Times(length, c)) % SP_N
      invariant dramEnd == dram + Times(length + skip, c)
      invariant Land(rdram[..], Xfer(dramEnd, length, skip, SpBytes(sp[..], memEnd, Times(length, count - c)))) ==
                Land(old(rdram[..]), Xfer(dram, length, skip, SpBytes(sp[..], memOff, Times(length, count))))
    {
      NextRow(sp[..], memEnd, length, Times(length, count - c - 1));
      LandRow(rdram[..], Xfer(dramEnd, length, skip, SpBytes(sp[..], memEnd, Times(length, count - c))));
      SpRowToRam(rdram, sp, memEnd, dramEnd, length);
      TimesOneMore(length, c);
      TimesOneMore(length + skip, c);
      memEnd := (memEnd + length) % SP_N;
      dramEnd := dramEnd + length + skip;
      c := c + 1;
    }
    LandNothing(rdram[..], Xfer(dramEnd, length, skip, SpBytes(sp[..], memEnd, 0)));
  }

  lemma LandNothing(mem: seq<byte>, x: Xfer)
    requires |x.bytes| == 0
    ensures Land(mem, x) == mem
  {
  }

  /** The logged path, at the signal processor's instant: every row into the payload ring from stream position w. */
  method SpRowsToRing(pay: array<byte>, sp: array<byte>, memOff: nat, length: nat, count: nat, w: nat)
      returns (memEnd: nat, end: nat)
    requires sp.Length == SP_N && pay.Length == PAY_N && pay != sp && memOff < SP_N
    requires Times(length, count) <= PAY_N
    modifies pay
    ensures InRing(pay[..], w, SpBytes(sp[..], memOff, Times(length, count)))
    ensures Kept(old(pay[..]), pay[..], w + Times(length, count) - PAY_N, w)
    ensures memEnd == (memOff + Times(length, count)) % SP_N && end == w + Times(length, count)
  {
    hide SpBytes, InRing, Kept, Times;
    memEnd, end := memOff, w;
    EmptyRow(pay[..], sp[..], memOff, w);
    TimesNone(length);
    var c := 0;
    while c < count
      invariant c <= count && memEnd == (memOff + Times(length, c)) % SP_N && end == w + Times(length, c)
      invariant end + Times(length, count - c) == w + Times(length, count)
      invariant InRing(pay[..], w, SpBytes(sp[..], memOff, Times(length, c)))
      invariant Kept(old(pay[..]), pay[..], end - PAY_N, w)
    {
      ghost var was := pay[..];
      assert length <= Times(length, count - c) by { TimesOneMore(length, count - c - 1); }
      SpRowToRing(pay, sp, memEnd, length, end);
      SpBytesJoin(sp[..], memOff, memEnd, Times(length, c), length);
      NextInRing(old(pay[..]), was, pay[..], w, SpBytes(sp[..], memOff, Times(length, c)),
                 SpBytes(sp[..], memEnd, length));
      TimesOneMore(length, c);
      TimesOneMore(length, count - c - 1);
      SameOffset(memEnd, memOff + Times(length, c), length);
      memEnd := (memEnd + length) % SP_N;
      end := end + length;
      c := c + 1;
    }
  }

  lemma NextInRing(first: seq<byte>, was: seq<byte>, now: seq<byte>, w: nat, a: seq<byte>, b: seq<byte>)
    requires |first| == |was| == |now| == PAY_N && |a| + |b| <= PAY_N
    requires InRing(was, w, a) && Kept(first, was, w + |a| - PAY_N, w)
    requires InRing(now, w + |a|, b) && Kept(was, now, w + |a| + |b| - PAY_N, w + |a|)
    ensures InRing(now, w, a + b) && Kept(first, now, w + |a| + |b| - PAY_N, w)
  {
    hide At;
    InRingKept(was, now, w + |a| + |b| - PAY_N, w + |a|, w, a);
    InRingJoin(now, w, a, b);
  }

  /** Landing a logged transfer: every row from the payload ring into RDRAM. */
  method RingRowsToRam(rdram: array<byte>, pay: array<byte>, r0: nat, dram0: nat, length: nat, count: nat, skip: nat,
                       ghost bytes: seq<byte>) returns (r: nat)
    requires pay.Length == PAY_N && pay != rdram && length > 0
    requires |bytes| == Times(length, count) && InRing(pay[..], r0, bytes)
    modifies rdram
    ensures rdram[..] == Land(old(rdram[..]), Xfer(dram0, length, skip, bytes)) && r == r0 + |bytes|
  {
    hide InRing, Put, Land;
    var c, dram: nat := 0, dram0;
    r := r0;
    ghost var rest := bytes;
    while c < count
      invariant c <= count && |rest| == Times(length, count - c) && r + |rest| == r0 + |bytes|
      invariant InRing(pay[..], r, rest)
      invariant Land(rdram[..], Xfer(dram, length, skip, rest)) == Land(old(rdram[..]), Xfer(dram0, length, skip, bytes))
    {
      InRingParts(pay[..], r, rest, length);
      LandRow(rdram[..], Xfer(dram, length, skip, rest));
      RingRowToRam(rdram, pay, r, dram, rest[..length], length);
      r := r + length;
      dram := dram + length + skip;
      rest := rest[length..];
      c := c + 1;
    }
    LandNothing(rdram[..], Xfer(dram, length, skip, rest));
  }

  lemma InRingParts(pay: seq<byte>, r: nat, b: seq<byte>, n: nat)
    requires |pay| == PAY_N && n <= |b| && InRing(pay, r, b)
    ensures InRing(pay, r, b[..n]) && InRing(pay, r + n, b[n..])
  {
    hide At;
    forall k | 0 <= k < |b| - n ensures At(pay, r + n + k) == b[n..][k] {
      assert At(pay, r + (n + k)) == b[n + k];
    }
  }
}
