/** What a DMA transfer from the signal processor leaves in RDRAM, and the reference machine that carries
    transfers out at their own instant. */
module DmaSpec {
  import opened Base

  // ---- transfers ----

  /** A transfer with its bytes already read: rows of `length` bytes, `skip` apart, from address `dram` on. */
  datatype Xfer = Xfer(dram: nat, length: nat, skip: nat, bytes: seq<byte>)

  /** n copies of k, added up. */
  function Times(k: nat, n: nat): nat
    decreases n
  {
    if n == 0 then 0 else k + Times(k, n - 1)
  }

  function Span(x: Xfer, count: nat): nat {
    Times(x.length + x.skip, count)
  }

  /** `count` whole, nonempty rows. */
  ghost predicate Rows(x: Xfer, count: nat) {
    x.length > 0 && |x.bytes| == Times(x.length, count)
  }

  /** Bytes written from address a on; what lies past the last chip is lost. */
  function Put(mem: seq<byte>, a: nat, b: seq<byte>): (m: seq<byte>)
    ensures |m| == |mem|
  {
    if a >= |mem| then mem
    else if a + |b| <= |mem| then mem[..a] + b + mem[a + |b|..]
    else mem[..a] + b[..|mem| - a]
  }

  /** The rest of a transfer after its first row. */
  function Rest(x: Xfer): Xfer
    requires x.length <= |x.bytes|
  {
    Xfer(x.dram + x.length + x.skip, x.length, x.skip, x.bytes[x.length..])
  }

  function Land(mem: seq<byte>, x: Xfer): (m: seq<byte>)
    ensures |m| == |mem|
    decreases |x.bytes|
  {
    if x.length == 0 || |x.bytes| < x.length then mem
    else Land(Put(mem, x.dram, x.bytes[..x.length]), Rest(x))
  }

  /** The byte a transfer leaves at address a, if it writes there. */
  function Hit(x: Xfer, a: nat): Option<byte>
    decreases |x.bytes|
  {
    if x.length == 0 || |x.bytes| < x.length then None
    else if Hit(Rest(x), a).Some? then Hit(Rest(x), a)
    else if x.dram <= a < x.dram + x.length then Some(x.bytes[a - x.dram])
    else None
  }

  /** A byte of memory under a transfer is the transfer's byte or the old one. */
  function Over(h: Option<byte>, b: byte): byte {
    if h.Some? then h.value else b
  }

  lemma PutAt(mem: seq<byte>, a: nat, b: seq<byte>, i: nat)
    requires i < |mem|
    ensures Put(mem, a, b)[i] == if a <= i < a + |b| then b[i - a] else mem[i]
  {
  }

  lemma {:induction false} LandAt(mem: seq<byte>, x: Xfer, a: nat)
    requires a < |mem|
    ensures Land(mem, x)[a] == Over(Hit(x, a), mem[a])
    decreases |x.bytes|
  {
    if x.length > 0 && |x.bytes| >= x.length {
      hide Put;
      PutAt(mem, x.dram, x.bytes[..x.length], a);
      LandAt(Put(mem, x.dram, x.bytes[..x.length]), Rest(x), a);
    }
  }

  /** A transfer stays between its first address and its span. */
  lemma {:induction false} HitInside(x: Xfer, count: nat, a: nat)
    requires Rows(x, count) && Hit(x, a).Some?
    ensures x.dram <= a < x.dram + Span(x, count)
    decreases count
  {
    if count > 0 && Hit(Rest(x), a).Some? { HitInside(Rest(x), count - 1, a); }
  }

  // ---- what waits for its instant ----

  /** An entry of the log: its instant, and the transfer if it is one. */
  datatype Item = Item(at: nat, dma: Option<Xfer>, count: nat)

  ghost predicate Proper(it: Item) {
    it.dma.Some? ==> Rows(it.dma.value, it.count) && it.count > 0
  }

  function LandItem(mem: seq<byte>, it: Item): (m: seq<byte>)
    ensures |m| == |mem|
  {
    if it.dma.Some? then Land(mem, it.dma.value) else mem
  }

  function LandAll(mem: seq<byte>, its: seq<Item>): (m: seq<byte>)
    ensures |m| == |mem|
    decreases |its|
  {
    if its == [] then mem else LandItem(LandAll(mem, its[..|its| - 1]), its[|its| - 1])
  }

  /** What a byte becomes under a list of entries: the last one that writes it wins. */
  function LastHit(its: seq<Item>, a: nat): Option<byte>
    decreases |its|
  {
    if its == [] then None
    else
      var it := its[|its| - 1];
      if it.dma.Some? && Hit(it.dma.value, a).Some? then Hit(it.dma.value, a) else LastHit(its[..|its| - 1], a)
  }

  lemma {:induction false} LandAllAt(mem: seq<byte>, its: seq<Item>, a: nat)
    requires a < |mem|
    ensures LandAll(mem, its)[a] == Over(LastHit(its, a), mem[a])
    decreases |its|
  {
    hide Land, Hit;
    if its != [] {
      var it := its[|its| - 1];
      LandAllAt(mem, its[..|its| - 1], a);
      if it.dma.Some? { LandAt(LandAll(mem, its[..|its| - 1]), it.dma.value, a); }
    }
  }

  lemma {:induction false} LandAllSplit(mem: seq<byte>, a: seq<Item>, b: seq<Item>)
    ensures LandAll(mem, a + b) == LandAll(LandAll(mem, a), b)
    decreases |b|
  {
    hide LandItem;
    if b == [] {
      assert a + b == a;
    } else {
      var n := |b| - 1;
      assert (a + b)[..|a| + n] == a + b[..n] && (a + b)[|a| + n] == b[n];
      LandAllSplit(mem, a, b[..n]);
    }
  }

  /** No entry of the list writes address a. */
  ghost predicate Clear(its: seq<Item>, a: nat) {
    forall i | 0 <= i < |its| :: its[i].dma.Some? ==> Hit(its[i].dma.value, a).None?
  }

  lemma {:induction false} ClearIsUntouched(mem: seq<byte>, its: seq<Item>, a: nat)
    requires a < |mem| && Clear(its, a)
    ensures LandAll(mem, its)[a] == mem[a]
    decreases |its|
  {
    hide LandItem, Hit;
    if its != [] {
      var it := its[|its| - 1];
      var below := LandAll(mem, its[..|its| - 1]);
      ClearIsUntouched(mem, its[..|its| - 1], a);
      if it.dma.Some? { LandAt(below, it.dma.value, a); }
      assert LandItem(below, it)[a] == below[a] by { UntouchedByItem(below, it, a); }
    }
  }

  lemma UntouchedByItem(mem: seq<byte>, it: Item, a: nat)
    requires a < |mem| && (it.dma.Some? ==> Hit(it.dma.value, a).None?)
    ensures LandItem(mem, it)[a] == mem[a]
  {
    hide Hit, Land;
    if it.dma.Some? { LandAt(mem, it.dma.value, a); }
  }

  /** Wherever a transfer writes, the list does not. */
  ghost predicate Apart(its: seq<Item>, x: Xfer, size: nat) {
    forall a: nat | a < size && Hit(x, a).Some? :: Clear(its, a)
  }

  /** A transfer that none of the waiting entries meets can go first or last. */
  lemma ApartCommutes(mem: seq<byte>, its: seq<Item>, x: Xfer)
    requires Apart(its, x, |mem|)
    ensures LandAll(Land(mem, x), its) == Land(LandAll(mem, its), x)
  {
    hide LandAll, Land, Hit, Clear;
    forall a: nat | a < |mem| ensures LandAll(Land(mem, x), its)[a] == Land(LandAll(mem, its), x)[a] {
      CommutesAt(mem, its, x, a);
    }
  }

  lemma CommutesAt(mem: seq<byte>, its: seq<Item>, x: Xfer, a: nat)
    requires a < |mem| && (Hit(x, a).Some? ==> Clear(its, a))
    ensures LandAll(Land(mem, x), its)[a] == Land(LandAll(mem, its), x)[a]
  {
    hide LandAll, Land, Hit, Clear;
    LandAt(mem, x, a);
    LandAt(LandAll(mem, its), x, a);
    if Hit(x, a).Some? {
      ClearIsUntouched(Land(mem, x), its, a);
    } else {
      LandAllAt(Land(mem, x), its, a);
      LandAllAt(mem, its, a);
    }
  }

  // ---- the reference machine ----

  /** RDRAM as the guest sees it at the CPU's clock, and the entries whose instant has not come. */
  datatype Guest = Guest(mem: seq<byte>, future: seq<Item>)

  /** How many entries at the front are due by instant t. */
  function Due(its: seq<Item>, t: nat): (n: nat)
    ensures n <= |its|
    ensures forall i | 0 <= i < n :: its[i].at <= t
    ensures n < |its| ==> its[n].at > t
  {
    if its == [] || its[0].at > t then 0 else 1 + Due(its[1..], t)
  }

  /** The CPU's clock reaches t: every entry due by then takes place. */
  function Reach(g: Guest, t: nat): Guest {
    var n := Due(g.future, t);
    Guest(LandAll(g.mem, g.future[..n]), g.future[n..])
  }

  ghost predicate InOrder(its: seq<Item>) {
    forall i, j | 0 <= i < j < |its| :: its[i].at <= its[j].at
  }

  /** With stamps in order, what is due by t is exactly what is stamped by t. */
  lemma DueIsStamped(its: seq<Item>, t: nat, i: nat)
    requires InOrder(its) && i < |its|
    ensures i < Due(its, t) <==> its[i].at <= t
  {
    hide Due;
  }

  lemma ReachTwice(g: Guest, t: nat)
    ensures Reach(Reach(g, t), t) == Reach(g, t)
  {
    var n := Due(g.future, t);
    var rest := g.future[n..];
    assert Due(rest, t) == 0;
    assert rest[..0] == [] && rest[0..] == rest;
  }
}
