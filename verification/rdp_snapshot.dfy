/** The command list of a display-processor job is copied out of RDRAM while the CPU may be landing the very
    transfers that brought it there. */
module RdpSnapshot {
  import opened Arithmetic
  import opened Base
  import opened DmaSpec
  import opened DmaCopy
  import opened DmaLog

  /** The byte that RDRAM holds at address i once the first j pending entries have landed. */
  ghost function After(mem: seq<byte>, its: seq<Item>, j: nat, i: nat): byte
    requires j <= |its| && i < |mem|
  {
    LandAll(mem, its[..j])[i]
  }

  /** Address i can have been read as v while the CPU landed the pending entries. */
  ghost predicate CouldRead(mem: seq<byte>, its: seq<Item>, i: nat, v: byte) {
    i < |mem| && exists j: nat :: j <= |its| && v == After(mem, its, j, i)
  }

  /** What a copy of RDRAM from address a on can have read while the CPU landed any prefix of the pending entries,
      whole or byte by byte: each byte as it was before or after each entry. */
  ghost predicate Raced(mem: seq<byte>, its: seq<Item>, a: nat, copied: seq<byte>) {
    forall k: nat | k < |copied| :: CouldRead(mem, its, a + k, copied[k])
  }

  /** The bytes of a run at address d that fall in [a, b). */
  function Shown(base: seq<byte>, d: nat, run: seq<byte>, a: nat, b: nat): (m: seq<byte>)
    ensures |m| == |base|
  {
    seq(|base|, i requires 0 <= i < |base| => if a <= i < b && d <= i < d + |run| then run[i - d] else base[i])
  }

  lemma ShownJoin(base: seq<byte>, d: nat, run: seq<byte>, more: seq<byte>, a: nat, b: nat)
    ensures Shown(Shown(base, d, run, a, b), d + |run|, more, a, b) == Shown(base, d, run + more, a, b)
  {
  }

  /** memcpy of the part of a run that falls in [a, b). */
  method ShowChunk(base: array<byte>, d: nat, src: seq<byte>, a: nat, b: nat)
    requires a <= b <= base.Length
    modifies base
    ensures base[..] == Shown(old(base[..]), d, src, a, b)
  {
    var lo := if d > a then d else a;
    var hi := if d + |src| < b then d + |src| else b;
    if lo < hi { CopyInto(base, lo, src[lo - d..hi - d]); }
  }

  method ShowRow(base: array<byte>, pay: array<byte>, r: nat, d: nat, ghost row: seq<byte>, length: nat, a: nat, b: nat)
    requires pay.Length == PAY_N && pay != base && |row| == length && InRing(pay[..], r, row) && a <= b <= base.Length
    modifies base
    ensures base[..] == Shown(old(base[..]), d, row, a, b)
  {
    hide Shown, InRing;
    var i := 0;
    assert row[0..] == row && row[..0] == [];
    NothingShown(base[..], d, a, b);
    while i < length
      invariant i <= length && InRing(pay[..], r + i, row[i..])
      invariant base[..] == Shown(old(base[..]), d, row[..i], a, b)
    {
      var ro := (r + i) % PAY_N;
      var n := length - i;
      if n > PAY_N - ro { n := PAY_N - ro; }
      RingSlice(pay[..], r + i, n, row[i..]);
      assert row[i..][n..] == row[i + n..] && row[..i] + row[i..][..n] == row[..i + n];
      ShownJoin(old(base[..]), d, row[..i], row[i..][..n], a, b);
      ShowChunk(base, d + i, pay[ro..ro + n], a, b);
      i := i + n;
    }
    assert row[..i] == row;
  }

  lemma NothingShown(base: seq<byte>, d: nat, a: nat, b: nat)
    ensures Shown(base, d, [], a, b) == base
  {
  }

  /** What address i of [a, b) will hold once the transfer has been put over `base`. */
  function Overlaid(base: seq<byte>, x: Xfer, a: nat, b: nat, i: nat): byte
    requires i < |base|
  {
    if a <= i < b then Over(Hit(x, i), base[i]) else base[i]
  }

  lemma OverlaidRow(base: seq<byte>, x: Xfer, a: nat, b: nat, i: nat)
    requires 0 < x.length <= |x.bytes| && i < |base|
    ensures Overlaid(Shown(base, x.dram, x.bytes[..x.length], a, b), Rest(x), a, b, i) == Overlaid(base, x, a, b, i)
  {
  }

  /** spDmaOverlay: the bytes of a logged transfer that fall in [a, b), put where RDRAM would have them. */
  method SpDmaOverlay(base: array<byte>, pay: array<byte>, j: Job, a: nat, b: nat, ghost x: Xfer)
    requires pay.Length == PAY_N && pay != base && a <= b <= base.Length
    requires Rows(x, j.count) && x.dram == j.dram && x.length == j.length && x.skip == j.skip
    requires InRing(pay[..], j.pay, x.bytes)
    modifies base
    ensures forall i: nat | i < base.Length :: base[i] == Overlaid(old(base[..]), x, a, b, i)
  {
    hide Overlaid, Shown, InRing;
    var r: nat, dram: nat, c := j.pay, j.dram, 0;
    ghost var rest := x;
    while c < j.count
      invariant c <= j.count && Rows(rest, j.count - c) && rest.dram == dram && rest.length == j.length
      invariant rest.skip == j.skip && InRing(pay[..], r, rest.bytes)
      invariant forall i: nat | i < base.Length ::
                  Overlaid(base[..], rest, a, b, i) == Overlaid(old(base[..]), x, a, b, i)
    {
      ghost var was := base[..];
      InRingParts(pay[..], r, rest.bytes, j.length);
      ShowRow(base, pay, r, dram, rest.bytes[..j.length], j.length, a, b);
      forall i: nat | i < base.Length
        ensures Overlaid(base[..], Rest(rest), a, b, i) == Overlaid(old(base[..]), x, a, b, i)
      {
        OverlaidRow(was, rest, a, b, i);
      }
      rest := Rest(rest);
      r := r + j.length;
      dram := dram + j.length + j.skip;
      c := c + 1;
    }
    forall i: nat | i < base.Length ensures base[i] == Overlaid(old(base[..]), x, a, b, i) {
      OverlaidNothing(base[..], rest, a, b, i);
    }
  }

  lemma OverlaidNothing(base: seq<byte>, x: Xfer, a: nat, b: nat, i: nat)
    requires |x.bytes| == 0 && i < |base|
    ensures Overlaid(base, x, a, b, i) == base[i]
  {
  }

  /** The last pending entry that writes address i wins over whatever the copy read there. */
  lemma {:induction false} NoEarlierHit(its: seq<Item>, j: nat, i: nat)
    requires j <= |its| && LastHit(its, i).None?
    ensures LastHit(its[..j], i).None?
    decreases |its|
  {
    hide Hit;
    if j == |its| {
      assert its[..j] == its;
    } else {
      assert its[..|its| - 1][..j] == its[..j];
      NoEarlierHit(its[..|its| - 1], j, i);
    }
  }

  /** Whichever entries the copy saw, putting all of them over it gives what RDRAM will hold after all of them. */
  lemma RaceIsOverlaid(mem: seq<byte>, its: seq<Item>, i: nat, v: byte)
    requires CouldRead(mem, its, i, v)
    ensures Over(LastHit(its, i), v) == LandAll(mem, its)[i]
  {
    hide LastHit, LandAll;
    var j: nat :| j <= |its| && v == After(mem, its, j, i);
    LandAllAt(mem, its, i);
    LandAllAt(mem, its[..j], i);
    if LastHit(its, i).None? { NoEarlierHit(its, j, i); }
  }

  /** Where address i of the window stands after the first n pending entries have been put over the copy. */
  ghost function Stands(its: seq<Item>, n: nat, base: seq<byte>, a: nat, b: nat, i: nat): byte
    requires n <= |its| && i < |base|
  {
    if a <= i < b then Over(LastHit(its[..n], i), base[i]) else base[i]
  }

  lemma NextStands(its: seq<Item>, n: nat, base: seq<byte>, now: seq<byte>, a: nat, b: nat, i: nat)
    requires n < |its| && i < |base| == |now| && now[i] == Stands(its, n, base, a, b, i)
    ensures Stands(its, n + 1, base, a, b, i) ==
            if its[n].dma.Some? then Overlaid(now, its[n].dma.value, a, b, i) else now[i]
  {
    hide Hit;
    assert its[..n + 1][..n] == its[..n];
  }

  /** rdpSnapshot: copy [current, end) of RDRAM and put every pending transfer over it. `copied` is what memcpy
      read, racing with the CPU. The copy is RDRAM as it will be once all the pending entries have landed. */
  method Snapshot(m: Journal, shadow: array<byte>, current: nat, end: nat, copied: seq<byte>)
    requires m.Valid() && shadow.Length == m.rdram.Length && shadow != m.dmaPay && shadow != m.rdram
    requires var a, b := WindowStart(current), WindowEnd(end, m.rdram.Length);
             a < b ==> |copied| == b - a && Raced(m.rdram[..], m.pending, a, copied)
    modifies shadow
    ensures var a, b := WindowStart(current), WindowEnd(end, m.rdram.Length);
            forall i: nat | i < shadow.Length ::
              shadow[i] == if a <= i < b then LandAll(m.rdram[..], m.pending)[i] else old(shadow[i])
  {
    hide CouldRead, LandAll, LastHit, Overlaid, Stands, Journal.Valid;
    var a, b := WindowStart(current), WindowEnd(end, m.rdram.Length);
    if a >= b { return; }
    CopyInto(shadow, a, copied);
    ghost var base := shadow[..];
    OverlayAll(m, shadow, a, b);
    forall i: nat | i < shadow.Length
      ensures shadow[i] == if a <= i < b then LandAll(m.rdram[..], m.pending)[i] else base[i]
    {
      assert m.pending[..|m.pending|] == m.pending;
      AllStand(m.pending, base, a, b, i);
      if a <= i < b {
        assert copied[i - a] == base[i] && CouldRead(m.rdram[..], m.pending, a + (i - a), copied[i - a]);
        RaceIsOverlaid(m.rdram[..], m.pending, i, base[i]);
      }
    }
  }

  lemma AllStand(its: seq<Item>, base: seq<byte>, a: nat, b: nat, i: nat)
    requires i < |base|
    ensures Stands(its, |its|, base, a, b, i) == if a <= i < b then Over(LastHit(its, i), base[i]) else base[i]
  {
    assert its[..|its|] == its;
  }

  method OverlayAll(m: Journal, shadow: array<byte>, a: nat, b: nat)
    requires m.Valid() && a <= b <= shadow.Length && shadow != m.dmaPay
    modifies shadow
    ensures forall i: nat | i < shadow.Length ::
              shadow[i] == Stands(m.pending, |m.pending|, old(shadow[..]), a, b, i)
  {
    hide LastHit, Overlaid, Stands, InRing, Logged, Paid, Indexed, Tally, PayTotal, SlotOf;
    var i := m.head;
    ghost var n := 0;
    forall k: nat | k < shadow.Length ensures shadow[k] == Stands(m.pending, 0, shadow[..], a, b, k) {
      NoneStand(m.pending, shadow[..], a, b, k);
    }
    while i != m.tail
      invariant n <= |m.pending| && i == m.head + n && m.Valid()
      invariant forall k: nat | k < shadow.Length :: shadow[k] == Stands(m.pending, n, old(shadow[..]), a, b, k)
      decreases m.tail - i
    {
      ghost var was := shadow[..];
      ghost var it := m.pending[n];
      m.SlotAt(n);
      if m.dpLog[SlotOf(i)].dma {
        SpDmaOverlay(shadow, m.dmaPay, m.dpLogDma[SlotOf(i)], a, b, it.dma.value);
      }
      forall k: nat | k < shadow.Length
        ensures shadow[k] == Stands(m.pending, n + 1, old(shadow[..]), a, b, k)
      {
        NextStands(m.pending, n, old(shadow[..]), was, a, b, k);
      }
      i, n := i + 1, n + 1;
    }
  }

  lemma NoneStand(its: seq<Item>, base: seq<byte>, a: nat, b: nat, i: nat)
    requires i < |base|
    ensures Stands(its, 0, base, a, b, i) == base[i]
  {
    assert its[..0] == [];
  }

  /** The window of a span: 24 bits of its two addresses, and not past the last chip. */
  lemma WindowIs(h: nat, x: nat, k: nat, y: nat, size: nat)
    requires x < 0x100_0000 && y < 0x100_0000
    ensures WindowStart(h * 0x100_0000 + x) == x
    ensures var b := WindowEnd(k * 0x100_0000 + y, size);
            b <= y && b <= size && (b == y || b == size)
  {
    Quotient(h * 0x100_0000 + x, 0x100_0000, h, x);
    Quotient(k * 0x100_0000 + y, 0x100_0000, k, y);
  }

  function WindowStart(current: nat): nat { current % 0x100_0000 }

  function WindowEnd(end: nat, size: nat): nat { if end % 0x100_0000 > size then size else end % 0x100_0000 }
}
