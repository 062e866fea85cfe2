/** What the registers of the signal processor's DMA engine say: which rows of its memory go where in RDRAM, and where
    the two addresses stand afterwards. */
module DmaRegs {
  import opened Arithmetic
  import opened Base
  import opened DmaSpec
  import opened DmaCopy

  // ---- the length register ----

  /** A row: the field plus one, rounded up to whole 8-byte words. */
  function RowLength(len: nat): (n: nat)
    ensures 8 <= n <= 0x1000 && n % 8 == 0
  {
    (len % 0x1000 + 8) / 8 * 8
  }

  function RowCount(len: nat): (n: nat)
    ensures 1 <= n <= 256
  {
    len / 0x1000 % 0x100 + 1
  }

  function RowSkip(len: nat): (n: nat)
    ensures n <= 0xff8 && n % 8 == 0
  {
    len / 0x10_0000 % 0x1000 / 8 * 8
  }

  // ---- the two addresses ----

  /** Where the engine's two address registers stand after the transfer. */
  function NextMemAddr(memAddr: nat, len: nat): nat {
    (if ImemBank(memAddr) then 0x1000 else 0) + (MemStart(memAddr) + Times(RowLength(len), RowCount(len))) % SP_N
  }

  function NextDramAddr(dramAddr: nat, len: nat): nat {
    (DramStart(dramAddr) + Times(RowLength(len) + RowSkip(len), RowCount(len))) % 0x100_0000
  }

  function DramStart(addr: nat): nat { addr % 0x100_0000 / 8 * 8 }

  function MemStart(addr: nat): (o: nat)
    ensures o < SP_N
  {
    addr % SP_N / 8 * 8
  }

  predicate ImemBank(addr: nat) { addr / SP_N % 2 == 1 }

  /** The transfer of a write of SP_WR_LEN. */
  ghost function Moved(memAddr: nat, dramAddr: nat, len: nat, dmem: seq<byte>, imem: seq<byte>): Xfer
    requires |dmem| == |imem| == SP_N
  {
    Xfer(DramStart(dramAddr), RowLength(len), RowSkip(len),
         SpBytes(if ImemBank(memAddr) then imem else dmem, MemStart(memAddr), Times(RowLength(len), RowCount(len))))
  }

  // ---- what they mean ----

  lemma SpanIsProduct(k: nat, n: nat)
    ensures Times(k, n) == k * n
  {
    if n > 0 { SpanIsProduct(k, n - 1); }
  }

  /** The RDRAM address is 24 bits of which the low three do not count. */
  lemma DramAddress(h: nat, q: nat, r: nat)
    requires q < 0x20_0000 && r < 8
    ensures DramStart(h * 0x100_0000 + 8 * q + r) == 8 * q
  {
    Quotient(h * 0x100_0000 + 8 * q + r, 0x100_0000, h, 8 * q + r);
    Quotient(8 * q + r, 8, q, r);
  }

  /** The other one: bit 12 chooses the memory, and of the 12 below it the low three do not count. */
  lemma MemAddress(h: nat, bank: nat, m: nat, r: nat)
    requires bank < 2 && m < 0x200 && r < 8
    ensures var a := h * 0x2000 + bank * 0x1000 + 8 * m + r;
            ImemBank(a) == (bank == 1) && MemStart(a) == 8 * m
  {
    Quotient(h * 0x2000 + bank * 0x1000 + 8 * m + r, 0x1000, 2 * h + bank, 8 * m + r);
    Quotient(8 * m + r, 8, m, r);
    Quotient(2 * h + bank, 2, h, bank);
  }

  /** The length word: the rows are the least whole number of 8-byte words longer than the low field, there is one more of
      them than the middle field says, and the gap is the high field without its low three bits. */
  lemma LengthWord(field: nat, count: nat, skip: nat, n: nat, g: nat)
    requires field < 0x1000 && 1 <= count <= 0x100 && skip < 0x1000
    requires n % 8 == 0 && n - 8 <= field < n && g % 8 == 0 && g <= skip < g + 8
    ensures var len := skip * 0x10_0000 + (count - 1) * 0x1000 + field;
            RowLength(len) == n && RowCount(len) == count && RowSkip(len) == g
  {
    var len := skip * 0x10_0000 + (count - 1) * 0x1000 + field;
    Quotient(len, 0x1000, skip * 0x100 + (count - 1), field);
    Quotient(skip * 0x100 + (count - 1), 0x100, skip, count - 1);
    Quotient(len, 0x10_0000, skip, (count - 1) * 0x1000 + field);
    Divide(n, 8);
    Quotient(field + 8, 8, n / 8, field + 8 - n);
    Divide(g, 8);
    Quotient(skip, 8, g / 8, skip - g);
    Quotient(skip, 0x1000, 0, skip);
  }

  /** Row i of a transfer goes `length + skip` bytes behind the one before. */
  lemma {:induction false} HitRow(x: Xfer, count: nat, i: nat, j: nat)
    requires Rows(x, count) && i < count && j < x.length
    ensures Times(x.length, i) + j < |x.bytes|
    ensures Hit(x, x.dram + Times(x.length + x.skip, i) + j) == Some(x.bytes[Times(x.length, i) + j])
    decreases count
  {
    var a := x.dram + Times(x.length + x.skip, i) + j;
    if i == 0 {
      if Hit(Rest(x), a).Some? { HitInside(Rest(x), count - 1, a); }
    } else {
      HitRow(Rest(x), count - 1, i - 1, j);
    }
  }

  lemma {:induction false} HitIsRow(x: Xfer, count: nat, a: nat) returns (i: nat, j: nat)
    requires Rows(x, count) && Hit(x, a).Some?
    ensures i < count && j < x.length && a == x.dram + Times(x.length + x.skip, i) + j
    decreases count
  {
    i, j := 0, if a < x.dram then 0 else a - x.dram;
    if count > 0 && Hit(Rest(x), a).Some? {
      i, j := HitIsRow(Rest(x), count - 1, a);
      i := i + 1;
    }
  }

  /** What a guest asks for: `count` rows out of memory `bank` from its m-th word on, to the q-th word of RDRAM; the length
      word says how long the rows are and how far apart. */
  datatype Order = Order(bank: nat, m: nat, q: nat, field: nat, count: nat, skip: nat) {
    predicate Fits() {
      bank < 2 && m < 0x200 && q < 0x20_0000 && field < 0x1000 && 1 <= count <= 0x100 && skip < 0x1000
    }

    /** The three registers; the bits that do not count are r and those above. */
    function MemWord(h: nat, r: nat): nat { h * 0x2000 + bank * 0x1000 + 8 * m + r }

    function DramWord(h: nat, r: nat): nat { h * 0x100_0000 + 8 * q + r }

    function LenWord(): nat
      requires Fits()
    {
      skip * 0x10_0000 + (count - 1) * 0x1000 + field
    }

    /** Rows of n bytes, g apart. */
    predicate Rows(n: nat, g: nat) {
      n % 8 == 0 && n - 8 <= field < n && g % 8 == 0 && g <= skip < g + 8
    }
  }

  lemma OrderIs(o: Order, mh: nat, mr: nat, dh: nat, dr: nat, n: nat, g: nat)
    requires o.Fits() && o.Rows(n, g) && mr < 8 && dr < 8
    ensures ImemBank(o.MemWord(mh, mr)) == (o.bank == 1) && MemStart(o.MemWord(mh, mr)) == 8 * o.m
    ensures DramStart(o.DramWord(dh, dr)) == 8 * o.q
    ensures RowLength(o.LenWord()) == n && RowCount(o.LenWord()) == o.count && RowSkip(o.LenWord()) == g
  {
    MemAddress(mh, o.bank, o.m, mr);
    DramAddress(dh, o.q, dr);
    LengthWord(o.field, o.count, o.skip, n, g);
  }

  /** A write of SP_WR_LEN from numbers to bytes: byte j of row i goes from the chosen memory, round its end, to its place
      in RDRAM. */
  lemma WhatMoves(o: Order, mh: nat, mr: nat, dh: nat, dr: nat, n: nat, g: nat, dmem: seq<byte>, imem: seq<byte>,
                  i: nat, j: nat)
    requires |dmem| == |imem| == 0x1000 && o.Fits() && o.Rows(n, g) && mr < 8 && dr < 8 && i < o.count && j < n
    ensures Hit(Moved(o.MemWord(mh, mr), o.DramWord(dh, dr), o.LenWord(), dmem, imem), 8 * o.q + Times(n + g, i) + j) ==
            Some((if o.bank == 1 then imem else dmem)[(8 * o.m + (Times(n, i) + j)) % 0x1000])
  {
    var x := Moved(o.MemWord(mh, mr), o.DramWord(dh, dr), o.LenWord(), dmem, imem);
    hide Moved, Hit, Times, Rows, Order.Fits, Order.Rows, Order.MemWord, Order.DramWord, Order.LenWord;
    MovedIs(o, mh, mr, dh, dr, n, g, dmem, imem, x);
    RowMoves(x, if o.bank == 1 then imem else dmem, o.count, 8 * o.m, i, j);
  }

  lemma RowMoves(x: Xfer, mem: seq<byte>, count: nat, m: nat, i: nat, j: nat)
    requires |mem| == 0x1000 && Rows(x, count) && i < count && j < x.length
    requires forall t: nat | t < |x.bytes| :: x.bytes[t] == mem[(m + t) % 0x1000]
    ensures Hit(x, x.dram + Times(x.length + x.skip, i) + j) == Some(mem[(m + (Times(x.length, i) + j)) % 0x1000])
  {
    hide Hit, Times, Rows;
    HitRow(x, count, i, j);
  }

  lemma MovedIs(o: Order, mh: nat, mr: nat, dh: nat, dr: nat, n: nat, g: nat, dmem: seq<byte>, imem: seq<byte>, x: Xfer)
    requires |dmem| == |imem| == 0x1000 && o.Fits() && o.Rows(n, g) && mr < 8 && dr < 8
    requires x == Moved(o.MemWord(mh, mr), o.DramWord(dh, dr), o.LenWord(), dmem, imem)
    ensures x.dram == 8 * o.q && x.length == n && x.skip == g && Rows(x, o.count)
    ensures forall t: nat | t < |x.bytes| :: x.bytes[t] == (if o.bank == 1 then imem else dmem)[(8 * o.m + t) % 0x1000]
  {
    OrderIs(o, mh, mr, dh, dr, n, g);
    hide DramStart, MemStart, ImemBank, RowLength, RowCount, RowSkip, Order.MemWord, Order.DramWord, Order.LenWord;
  }

  /** And nothing goes anywhere else. */
  lemma NothingElseMoves(o: Order, mh: nat, mr: nat, dh: nat, dr: nat, n: nat, g: nat, dmem: seq<byte>, imem: seq<byte>,
                         a: nat) returns (i: nat, j: nat)
    requires |dmem| == |imem| == 0x1000 && o.Fits() && o.Rows(n, g) && mr < 8 && dr < 8
    requires Hit(Moved(o.MemWord(mh, mr), o.DramWord(dh, dr), o.LenWord(), dmem, imem), a).Some?
    ensures i < o.count && j < n && a == 8 * o.q + Times(n + g, i) + j
  {
    var x := Moved(o.MemWord(mh, mr), o.DramWord(dh, dr), o.LenWord(), dmem, imem);
    hide Moved, Hit, Times, Rows, Order.Fits, Order.Rows;
    MovedIs(o, mh, mr, dh, dr, n, g, dmem, imem, x);
    i, j := HitIsRow(x, o.count, a);
  }

  /** Where the registers stand afterwards: behind what was moved, the memory's address in its own 4 KB. */
  lemma WhereItEnds(o: Order, mh: nat, mr: nat, dh: nat, dr: nat, n: nat, g: nat)
    requires o.Fits() && o.Rows(n, g) && mr < 8 && dr < 8
    ensures NextMemAddr(o.MemWord(mh, mr), o.LenWord()) == o.bank * 0x1000 + (8 * o.m + Times(n, o.count)) % 0x1000
    ensures NextDramAddr(o.DramWord(dh, dr), o.LenWord()) == (8 * o.q + Times(n + g, o.count)) % 0x100_0000
  {
    OrderIs(o, mh, mr, dh, dr, n, g);
    hide DramStart, MemStart, ImemBank, RowLength, RowCount, RowSkip, Times, Order.MemWord, Order.DramWord, Order.LenWord;
    hide Order.Fits, Order.Rows;
  }
}
