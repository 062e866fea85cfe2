/** Deferred DMA: the signal processor runs ahead of the CPU, so a transfer into RDRAM is logged with its bytes
    and lands only when the CPU gets to its instant, or looks at one of its pages. */
module DmaLog {
  import opened Arithmetic
  import opened Base
  import opened DmaSpec
  import opened DmaCopy
  import opened DmaRegs

  const LOG_N := 0x1000
  const PAGE := 0x1000
  const PAGES := 0x800

  // ---- the page index ----

  /** Entries that touch page p; without a page, entries that are transfers at all. */
  ghost predicate Covers(it: Item, p: Option<nat>) {
    it.dma.Some? &&
    (p.Some? ==>
       var x := it.dma.value;
       x.dram / PAGE <= p.value <= (x.dram + Span(x, it.count) - 1) / PAGE)
  }

  ghost function Tally(its: seq<Item>, p: Option<nat>): nat
    decreases |its|
  {
    if its == [] then 0 else Tally(its[..|its| - 1], p) + (if Covers(its[|its| - 1], p) then 1 else 0)
  }

  lemma TallyMore(its: seq<Item>, it: Item, p: Option<nat>)
    ensures Tally(its + [it], p) == Tally(its, p) + (if Covers(it, p) then 1 else 0)
  {
    hide Covers;
    assert (its + [it])[..|its|] == its;
  }

  lemma {:induction false} TallyFirst(its: seq<Item>, p: Option<nat>)
    requires its != []
    ensures Tally(its, p) == Tally(its[1..], p) + (if Covers(its[0], p) then 1 else 0)
    decreases |its|
  {
    hide Covers;
    var n := |its| - 1;
    if n > 0 {
      TallyFirst(its[..n], p);
      assert its[..n][1..] == its[1..][..n - 1];
    } else {
      assert its[..n] == [] && its[1..] == [];
    }
  }

  lemma {:induction false} ZeroTally(its: seq<Item>, p: Option<nat>, i: nat)
    requires Tally(its, p) == 0 && i < |its|
    ensures !Covers(its[i], p)
    decreases |its|
  {
    hide Covers;
    var n := |its| - 1;
    if i < n { ZeroTally(its[..n], p, i); }
  }

  /** An address that a transfer writes lies on a page the index counts. */
  lemma HitIsCounted(it: Item, a: nat)
    requires Proper(it) && it.dma.Some? && Hit(it.dma.value, a).Some?
    ensures Covers(it, Some(a / PAGE))
  {
    hide Hit, Span, Rows;
    HitInside(it.dma.value, it.count, a);
  }

  /** Where the index counts nothing, no waiting entry writes. */
  lemma UncountedIsClear(its: seq<Item>, a: nat)
    requires forall i | 0 <= i < |its| :: Proper(its[i])
    requires Tally(its, Some(a / PAGE)) == 0
    ensures Clear(its, a)
  {
    hide Covers, Hit, Tally, Proper;
    forall i | 0 <= i < |its| && its[i].dma.Some? ensures Hit(its[i].dma.value, a).None? {
      ZeroTally(its, Some(a / PAGE), i);
      if Hit(its[i].dma.value, a).Some? { HitIsCounted(its[i], a); }
    }
  }

  /** dmaPgMark: one more or one less entry on every page of [dram, dram + span). */
  method MarkPages(pg: array<int>, dram: nat, span: nat, s: int)
    requires pg.Length == PAGES && span > 0
    modifies pg
    ensures forall p | 0 <= p < PAGES ::
              pg[p] == old(pg[p]) + if dram / PAGE <= p <= (dram + span - 1) / PAGE then s else 0
  {
    var p := dram / PAGE;
    var e := (dram + span - 1) / PAGE;
    while p <= e && p < PAGES
      invariant dram / PAGE <= p
      invariant forall q | 0 <= q < PAGES ::
                  pg[q] == old(pg[q]) + if dram / PAGE <= q <= e && q < p then s else 0
      decreases PAGES - p
    {
      pg[p] := pg[p] + s;
      p := p + 1;
    }
  }

  // ---- the log ----

  /** A slot of the log: the instant, and whether a transfer hangs from it. */
  datatype Slot = Slot(at: nat, dma: bool)

  /** The transfer that hangs from a slot; its bytes start at stream position `pay` of the payload ring. */
  datatype Job = Job(dram: nat, length: nat, count: nat, skip: nat, pay: nat)

  function PayBytes(it: Item): nat {
    if it.dma.Some? then |it.dma.value.bytes| else 0
  }

  function PayTotal(its: seq<Item>): nat
    decreases |its|
  {
    if its == [] then 0 else PayTotal(its[..|its| - 1]) + PayBytes(its[|its| - 1])
  }

  lemma PayMore(its: seq<Item>, it: Item)
    ensures PayTotal(its + [it]) == PayTotal(its) + PayBytes(it)
  {
    assert (its + [it])[..|its|] == its;
  }

  lemma {:induction false} PayFirst(its: seq<Item>, i: nat)
    requires its != [] && i < |its|
    ensures PayTotal(its[..i + 1]) == PayBytes(its[0]) + PayTotal(its[1..][..i])
    decreases i
  {
    hide PayBytes;
    if i > 0 {
      PayFirst(its, i - 1);
      assert its[..i + 1][..i] == its[..i] && its[1..][..i][..i - 1] == its[1..][..i - 1];
    } else {
      assert its[..1][..0] == [] && its[1..][..0] == [];
    }
  }

  lemma {:induction false} PayPrefix(its: seq<Item>, i: nat)
    requires i < |its|
    ensures PayTotal(its[..i]) + PayBytes(its[i]) <= PayTotal(its)
    decreases |its|
  {
    hide PayBytes;
    var n := |its| - 1;
    if i < n {
      assert its[..n][..i] == its[..i];
      PayPrefix(its[..n], i);
    }
  }

  // ---- what the rings and the index hold ----

  function SlotOf(q: nat): (s: nat)
    ensures s < LOG_N
  {
    q % LOG_N
  }

  ghost predicate SlotHolds(s: Slot, j: Job, it: Item, pay: nat) {
    && s == Slot(it.at, it.dma.Some?)
    && (it.dma.Some? ==> var x := it.dma.value; j == Job(x.dram, x.length, it.count, x.skip, pay))
  }

  /** The i-th slot from `head` on stands for the i-th pending entry. */
  ghost predicate EntryHolds(log: seq<Slot>, jobs: seq<Job>, head: nat, payHead: nat, its: seq<Item>, i: nat)
    requires |log| == |jobs| == LOG_N && i < |its|
  {
    SlotHolds(log[SlotOf(head + i)], jobs[SlotOf(head + i)], its[i], payHead + PayTotal(its[..i])) && Proper(its[i])
  }

  /** The slots from `head` on are the pending entries, in the order of their stamps. */
  ghost predicate Logged(log: seq<Slot>, jobs: seq<Job>, head: nat, payHead: nat, its: seq<Item>)
    requires |log| == |jobs| == LOG_N
  {
    && |its| <= LOG_N && InOrder(its)
    && forall i: nat | i < |its| :: EntryHolds(log, jobs, head, payHead, its, i)
  }

  /** The payload ring from `payHead` on is the bytes of the pending transfers, one after another. */
  ghost predicate Paid(pay: seq<byte>, payHead: nat, its: seq<Item>)
    requires |pay| == PAY_N
  {
    && PayTotal(its) <= PAY_N
    && forall i | 0 <= i < |its| && its[i].dma.Some? ::
         InRing(pay, payHead + PayTotal(its[..i]), its[i].dma.value.bytes)
  }

  /** The index counts, for each page, the pending transfers that touch it. */
  ghost predicate Indexed(pg: seq<int>, its: seq<Item>)
    requires |pg| == PAGES
  {
    forall p: nat | p < PAGES :: pg[p] == Tally(its, Some(p))
  }

  lemma LoggedFirst(log: seq<Slot>, jobs: seq<Job>, head: nat, payHead: nat, its: seq<Item>)
    requires |log| == |jobs| == LOG_N && Logged(log, jobs, head, payHead, its) && its != []
    ensures Logged(log, jobs, head + 1, payHead + PayBytes(its[0]), its[1..])
  {
    hide EntryHolds;
    var rest, next, nextPay := its[1..], head + 1, payHead + PayBytes(its[0]);
    forall i: nat | i < |rest| ensures EntryHolds(log, jobs, next, nextPay, rest, i) {
      EntryFirst(log, jobs, head, payHead, its, i);
    }
  }

  lemma EntryFirst(log: seq<Slot>, jobs: seq<Job>, head: nat, payHead: nat, its: seq<Item>, i: nat)
    requires |log| == |jobs| == LOG_N && i + 1 < |its| && EntryHolds(log, jobs, head, payHead, its, i + 1)
    ensures EntryHolds(log, jobs, head + 1, payHead + PayBytes(its[0]), its[1..], i)
  {
    hide SlotHolds, Proper, PayTotal, PayBytes;
    PayFirst(its, i);
    assert head + 1 + i == head + (i + 1);
  }

  lemma LoggedMore(log: seq<Slot>, jobs: seq<Job>, head: nat, payHead: nat, its: seq<Item>, it: Item, j: Job)
    requires |log| == |jobs| == LOG_N && Logged(log, jobs, head, payHead, its)
    requires |its| < LOG_N && Proper(it) && (its != [] ==> its[|its| - 1].at <= it.at)
    requires SlotHolds(Slot(it.at, it.dma.Some?), j, it, payHead + PayTotal(its))
    ensures var t := SlotOf(head + |its|);
            Logged(log[t := Slot(it.at, it.dma.Some?)], jobs[t := j], head, payHead, its + [it])
  {
    hide EntryHolds;
    var t := SlotOf(head + |its|);
    var log', jobs' := log[t := Slot(it.at, it.dma.Some?)], jobs[t := j];
    forall i: nat | i < |its| + 1 ensures EntryHolds(log', jobs', head, payHead, its + [it], i) {
      if i < |its| {
        EntryStays(log, jobs, head, payHead, its, i, it, j);
      } else {
        LastEntry(log, jobs, head, payHead, its, it, j);
      }
    }
  }

  lemma EntryStays(log: seq<Slot>, jobs: seq<Job>, head: nat, payHead: nat, its: seq<Item>, i: nat, it: Item, j: Job)
    requires |log| == |jobs| == LOG_N && i < |its| < LOG_N && EntryHolds(log, jobs, head, payHead, its, i)
    ensures var t := SlotOf(head + |its|);
            EntryHolds(log[t := Slot(it.at, it.dma.Some?)], jobs[t := j], head, payHead, its + [it], i)
  {
    OwnSlots(head + i, head + |its|, LOG_N);
    hide SlotHolds, Proper, PayTotal, SlotOf;
    assert (its + [it])[..i] == its[..i];
  }

  lemma LastEntry(log: seq<Slot>, jobs: seq<Job>, head: nat, payHead: nat, its: seq<Item>, it: Item, j: Job)
    requires |log| == |jobs| == LOG_N && Proper(it)
    requires SlotHolds(Slot(it.at, it.dma.Some?), j, it, payHead + PayTotal(its))
    ensures var t := SlotOf(head + |its|);
            EntryHolds(log[t := Slot(it.at, it.dma.Some?)], jobs[t := j], head, payHead, its + [it], |its|)
  {
    hide SlotHolds, Proper, PayTotal, SlotOf;
    assert (its + [it])[..|its|] == its;
  }

  lemma PaidFirst(pay: seq<byte>, payHead: nat, its: seq<Item>)
    requires |pay| == PAY_N && Paid(pay, payHead, its) && its != []
    ensures Paid(pay, payHead + PayBytes(its[0]), its[1..])
    ensures PayTotal(its) == PayBytes(its[0]) + PayTotal(its[1..])
  {
    hide PayTotal, PayBytes, InRing;
    var rest := its[1..];
    PayFirst(its, |its| - 1);
    assert its[..|its|] == its && rest[..|rest|] == rest;
    forall i | 0 <= i < |rest| && rest[i].dma.Some?
      ensures InRing(pay, payHead + PayBytes(its[0]) + PayTotal(rest[..i]), rest[i].dma.value.bytes)
    {
      PayFirst(its, i);
    }
  }

  /** New bytes behind the pending ones, in a ring with room for them. */
  lemma PaidMore(was: seq<byte>, now: seq<byte>, payHead: nat, its: seq<Item>, it: Item)
    requires |was| == |now| == PAY_N && Paid(was, payHead, its) && PayTotal(its) + PayBytes(it) <= PAY_N
    requires Kept(was, now, payHead + PayTotal(its) + PayBytes(it) - PAY_N, payHead + PayTotal(its))
    requires it.dma.Some? ==> InRing(now, payHead + PayTotal(its), it.dma.value.bytes)
    ensures Paid(now, payHead, its + [it])
  {
    hide PayTotal, InRing, Kept;
    var all := its + [it];
    PayMore(its, it);
    forall i | 0 <= i < |all| && all[i].dma.Some?
      ensures InRing(now, payHead + PayTotal(all[..i]), all[i].dma.value.bytes)
    {
      if i < |its| {
        assert all[..i] == its[..i];
        PayPrefix(its, i);
        InRingKept(was, now, payHead + PayTotal(its) + PayBytes(it) - PAY_N, payHead + PayTotal(its),
                   payHead + PayTotal(its[..i]), its[i].dma.value.bytes);
      } else {
        assert all[..i] == its;
      }
    }
  }

  /** Landing the oldest entry, when it is due, changes nothing of what the guest sees. */
  lemma FirstLands(mem: seq<byte>, its: seq<Item>, t: nat)
    requires its != [] && its[0].at <= t
    ensures Reach(Guest(LandItem(mem, its[0]), its[1..]), t) == Reach(Guest(mem, its), t)
  {
    hide LandItem;
    var n := Due(its[1..], t);
    assert Due(its, t) == n + 1;
    assert its[..n + 1] == [its[0]] + its[1..][..n] && its[n + 1..] == its[1..][n..];
    assert [its[0]][..0] == [];
    LandAllSplit(mem, [its[0]], its[1..][..n]);
  }

  class Journal {
    const rdram: array<byte>
    const dmem: array<byte>
    const imem: array<byte>
    var spMemAddr: nat
    var spDramAddr: nat
    const dpLog: array<Slot>
    const dpLogDma: array<Job>
    var head: nat
    var tail: nat
    const dmaPay: array<byte>
    var payHead: nat
    var payTail: nat
    var pgPend: int
    const dmaPg: array<int>
    var clock: nat
    // What the slots from head to tail stand for, oldest first.
    ghost var pending: seq<Item>

    ghost predicate Shape()
    {
      && rdram.Length <= PAGES * PAGE && dmem.Length == imem.Length == SP_N && dmaPay.Length == PAY_N
      && rdram != dmem && rdram != imem && rdram != dmaPay && dmem != imem && dmem != dmaPay && imem != dmaPay
      && dpLog.Length == dpLogDma.Length == LOG_N && dmaPg.Length == PAGES
    }

    ghost predicate Valid()
      reads this, dpLog, dpLogDma, dmaPay, dmaPg
    {
      && Shape()
      && tail == head + |pending| && payTail == payHead + PayTotal(pending) && pgPend == Tally(pending, None)
      && Logged(dpLog[..], dpLogDma[..], head, payHead, pending)
      && Paid(dmaPay[..], payHead, pending)
      && Indexed(dmaPg[..], pending)
    }

    /** Only entries at the front have gone. */
    ghost predicate Left(was: seq<Item>)
      reads this`pending
    {
      |pending| <= |was| && pending == was[|was| - |pending|..]
    }

    constructor (size: nat)
      requires size <= PAGES * PAGE
      ensures Valid() && fresh(this) && rdram.Length == size && pending == [] && clock == 0
      ensures fresh(rdram) && fresh(dmem) && fresh(imem) && fresh(dpLog) && fresh(dpLogDma) && fresh(dmaPay) && fresh(dmaPg)
    {
      rdram := new byte[size](_ => 0);
      dmem := new byte[SP_N](_ => 0);
      imem := new byte[SP_N](_ => 0);
      dpLog := new Slot[LOG_N](_ => Slot(0, false));
      dpLogDma := new Job[LOG_N](_ => Job(0, 0, 0, 0, 0));
      dmaPay := new byte[PAY_N](_ => 0);
      dmaPg := new int[PAGES](_ => 0);
      spMemAddr, spDramAddr, head, tail, payHead, payTail, pgPend := 0, 0, 0, 0, 0, 0, 0;
      pending, clock := [], 0;
    }

    /** RDRAM as the guest sees it at the CPU's clock, and what is still to come: an entry that the clock has passed has
        taken place, whether or not it has been applied yet. */
    ghost function Seen(): (g: Guest)
      reads this, rdram
      ensures |g.mem| == rdram.Length
    {
      Reach(Guest(rdram[..], pending), clock)
    }

    /** The entries that the clock has passed and that are still to be applied. */
    ghost function Behind(): seq<Item>
      reads this
    {
      pending[..Due(pending, clock)]
    }

    /** The transfer of a slot lands, and its pages lose one entry. */
    method LandSlot(h: nat, ghost it: Item)
      requires Shape() && h < LOG_N && Proper(it) && SlotHolds(dpLog[h], dpLogDma[h], it, payHead)
      requires it.dma.Some? ==> InRing(dmaPay[..], payHead, it.dma.value.bytes)
      modifies this`payHead, this`pgPend, rdram, dmaPg
      ensures rdram[..] == LandItem(old(rdram[..]), it)
      ensures payHead == old(payHead) + PayBytes(it) && pgPend == old(pgPend) - if Covers(it, None) then 1 else 0
      ensures forall p: nat | p < PAGES :: dmaPg[p] == old(dmaPg[p]) - if Covers(it, Some(p)) then 1 else 0
    {
      hide InRing, Land;
      if dpLog[h].dma {
        var d := dpLogDma[h];
        payHead := RingRowsToRam(rdram, dmaPay, d.pay, d.dram, d.length, d.count, d.skip, it.dma.value.bytes);
        SpanIsProduct(d.length + d.skip, d.count);
        MarkPages(dmaPg, d.dram, (d.length + d.skip) * d.count, -1);
        pgPend := pgPend - 1;
      }
    }

    /** The oldest entry, whose instant the CPU's clock has passed, takes effect. */
    method ApplyOne()
      requires Valid() && pending != [] && pending[0].at <= clock
      modifies this`head, this`payHead, this`pgPend, this`pending, rdram, dmaPg
      ensures Valid() && pending == old(pending)[1..] && Seen() == old(Seen())
    {
      hide Logged, Paid, LandAll, LandItem, Tally, PayTotal, PayBytes, Indexed, Covers, SlotHolds, Proper, Due, Reach;
      LoggedFirst(dpLog[..], dpLogDma[..], head, payHead, pending);
      PaidFirst(dmaPay[..], payHead, pending);
      TallyFirst(pending, None);
      FirstLands(rdram[..], pending, clock);
      FrontSlot();
      LandSlot(SlotOf(head), pending[0]);
      IndexedFirst(old(dmaPg[..]), dmaPg[..], pending);
      head := head + 1;
      pending := pending[1..];
    }

    /** What the rings hold for the n-th pending entry. */
    lemma SlotAt(n: nat)
      requires Valid() && n < |pending|
      ensures var pay := payHead + PayTotal(pending[..n]);
              && SlotHolds(dpLog[SlotOf(head + n)], dpLogDma[SlotOf(head + n)], pending[n], pay) && Proper(pending[n])
              && (pending[n].dma.Some? ==> InRing(dmaPay[..], pay, pending[n].dma.value.bytes))
    {
      assert EntryHolds(dpLog[..], dpLogDma[..], head, payHead, pending, n);
      hide SlotHolds, Proper, InRing;
    }

    lemma FrontSlot()
      requires Valid() && pending != []
      ensures SlotHolds(dpLog[SlotOf(head)], dpLogDma[SlotOf(head)], pending[0], payHead) && Proper(pending[0])
      ensures pending[0].dma.Some? ==> InRing(dmaPay[..], payHead, pending[0].dma.value.bytes)
    {
      hide SlotHolds, Proper, InRing;
      SlotAt(0);
      assert pending[..0] == [];
    }

    /** The CPU's clock moves on; what comes due is due, whether or not it has been applied yet. */
    method Tick(t: nat)
      requires Valid() && clock <= t
      modifies this`clock
      ensures Valid() && clock == t && Seen() == Reach(old(Seen()), t)
    {
      hide Logged, Paid, Indexed, Reach;
      ReachLater(Guest(rdram[..], pending), clock, t);
      clock := t;
    }

    /** The oldest entry is stamped up to `upTo`. */
    method OldestDue(upTo: nat) returns (due: bool)
      requires Valid()
      ensures due == (pending != [] && pending[0].at <= upTo)
    {
      hide Paid, Indexed, Tally, PayTotal;
      if head == tail { return false; }
      FrontSlot();
      due := dpLog[head % LOG_N].at <= upTo;
    }

    /** dpLogApply: the CPU applies everything stamped up to its clock, in order, and stops at the first entry
        that is not. */
    method LogApply(upTo: nat)
      requires Valid() && clock <= upTo
      modifies this`head, this`payHead, this`pgPend, this`pending, this`clock, rdram, dmaPg
      ensures Valid() && clock == upTo && Seen() == Reach(old(Seen()), upTo) && CaughtUp()
      ensures pending == old(pending)[Due(old(pending), upTo)..]
    {
      hide Valid, Seen, Reach, Due;
      Tick(upTo);
      ghost var all, n := pending, 0;
      assert all[0..] == all;
      var due := OldestDue(upTo);
      while due
        invariant Valid() && clock == upTo && Seen() == Reach(old(Seen()), upTo)
        invariant n <= |all| && pending == all[n..] && forall i | 0 <= i < n :: all[i].at <= upTo
        invariant due == (pending != [] && pending[0].at <= upTo)
        decreases |pending|
      {
        ApplyOne();
        assert all[n..][1..] == all[n + 1..];
        n := n + 1;
        due := OldestDue(upTo);
      }
      DueIs(all, upTo, n);
    }

    ghost predicate CaughtUp()
      reads this`pending, this`clock
    {
      pending != [] ==> pending[0].at > clock
    }

    /** With nothing left behind the clock, RDRAM is what the guest sees. */
    lemma NothingBehind()
      requires CaughtUp()
      ensures Seen() == Guest(rdram[..], pending) && Behind() == []
    {
      hide LandAll, Due;
      DueIs(pending, clock, 0);
      LandAllNone(rdram[..]);
    }

    // ---- the CPU looks at RDRAM ----

    /** RDRAM holds what the guest sees at address a, and no entry that it has passed is still to write there. */
    ghost predicate Settled(a: nat)
      reads this, rdram
    {
      a < rdram.Length && rdram[a] == Seen().mem[a] && Clear(Behind(), a)
    }

    /** No pending entry at all, or none on this page: nothing the guest has passed is missing there. */
    lemma QuietPage(a: nat)
      requires Valid() && a < rdram.Length
      requires pgPend == 0 || (a / PAGE < PAGES && dmaPg[a / PAGE] == 0)
      ensures Settled(a)
    {
      QuietIsClear(a);
      hide Logged, Paid, Indexed, Tally, LandAll, PayTotal, Clear, Due;
      FrontIsClear(pending, Due(pending, clock), a);
      ClearIsUntouched(rdram[..], Behind(), a);
    }

    /** dmaSettle: before the CPU looks at [lo, hi) at instant t. Pages without pending entries cost nothing. */
    method Settle(lo: nat, hi: nat, t: nat)
      requires Valid() && clock <= t
      modifies this`head, this`payHead, this`pgPend, this`pending, this`clock, rdram, dmaPg
      ensures Valid() && clock == t && Seen() == Reach(old(Seen()), t) && Left(old(pending))
      ensures forall a: nat | lo <= a < hi && a < rdram.Length :: Settled(a)
    {
      hide Valid, Seen, Settled, Reach, Due;
      Tick(t);
      if pgPend == 0 {
        forall a: nat | lo <= a < hi && a < rdram.Length
          ensures Settled(a)
        {
          QuietPage(a);
        }
        return;
      }
      ShapeOf();
      var p := lo / PAGE;
      if hi > lo && (hi - 1) / PAGE == p && p < PAGES && dmaPg[p] == 0 {
        forall a: nat | lo <= a < hi && a < rdram.Length
          ensures Settled(a)
        {
          assert a / PAGE == p;
          QuietPage(a);
        }
        return;
      }
      SettleSlow(lo, hi, t);
    }

    /** dmaSettleSlow: page by page over a short stretch, or the whole log. */
    method SettleSlow(lo: nat, hi: nat, t: nat)
      requires Valid() && clock == t
      modifies this`head, this`payHead, this`pgPend, this`pending, this`clock, rdram, dmaPg
      ensures Valid() && clock == old(clock) && Seen() == old(Seen()) && Left(old(pending))
      ensures forall a: nat | lo <= a < hi && a < rdram.Length :: Settled(a)
    {
      hide Valid, Seen, Settled, Reach, Due;
      ShapeOf();
      var top := if hi <= lo then lo + 1 else hi;
      var p := lo / PAGE;
      var e := (top - 1) / PAGE;
      if e >= p + 8 { ApplyAll(t); return; }
      while p <= e && p < PAGES
        invariant lo / PAGE <= p
        invariant forall q | lo / PAGE <= q < p :: q < PAGES && dmaPg[q] == 0
        decreases PAGES - p
      {
        if dmaPg[p] != 0 { ApplyAll(t); return; }
        p := p + 1;
      }
      forall a: nat | lo <= a < hi && a < rdram.Length
        ensures Settled(a)
      {
        assert lo / PAGE <= a / PAGE <= e && a / PAGE < PAGES;
        QuietPage(a);
      }
    }

    method ApplyAll(t: nat)
      requires Valid() && clock == t
      modifies this`head, this`payHead, this`pgPend, this`pending, this`clock, rdram, dmaPg
      ensures Valid() && clock == old(clock) && Seen() == old(Seen()) && Left(old(pending))
      ensures forall a: nat | a < rdram.Length :: Settled(a)
    {
      hide Valid, Reach, Due, Settled, Seen, CaughtUp;
      SeenStays();
      LogApply(t);
      NothingBehind();
      forall a: nat | a < rdram.Length ensures Settled(a) { SettledHere(a); }
    }

    lemma SettledHere(a: nat)
      requires a < rdram.Length && Seen() == Guest(rdram[..], pending) && Behind() == []
      ensures Settled(a)
    {
      hide Seen, Behind;
    }

    lemma ShapeOf()
      requires Valid()
      ensures Shape()
    {
    }

    /** A load: exactly what the guest sees at that instant. */
    method CpuRead(lo: nat, hi: nat, t: nat) returns (b: seq<byte>)
      requires Valid() && clock <= t && lo <= hi <= rdram.Length
      modifies this`head, this`payHead, this`pgPend, this`pending, this`clock, rdram, dmaPg
      ensures Valid() && clock == t && Left(old(pending)) && Seen() == Reach(old(Seen()), t) && b == Seen().mem[lo..hi]
    {
      hide Valid, Reach, Seen, Clear, Behind;
      Settle(lo, hi, t);
      forall a: nat | lo <= a < hi ensures rdram[a] == Seen().mem[a] { assert Settled(a); }
      b := rdram[lo..hi];
    }

    /** A store: transfers that came before it do not come back over it, later ones do. */
    method CpuWrite(lo: nat, b: seq<byte>, t: nat)
      requires Valid() && clock <= t && lo + |b| <= rdram.Length
      modifies this`head, this`payHead, this`pgPend, this`pending, this`clock, rdram, dmaPg
      ensures Valid() && clock == t && Left(old(pending))
      ensures Seen() == Guest(Put(Reach(old(Seen()), t).mem, lo, b), Reach(old(Seen()), t).future)
    {
      hide Clear, LandAll, Put, Logged, Paid, Indexed, Tally, PayTotal, Due;
      hide Reach;
      Settle(lo, lo + |b|, t);
      forall a: nat | lo <= a < lo + |b| ensures Clear(Behind(), a) { assert Settled(a); }
      PutSeen(rdram[..], pending, Behind(), clock, lo, b);
      PutChunk(rdram, lo, b);
    }

    // ---- the signal processor writes its length registers ----

    /** What a write of SP_WR_LEN moves: the bytes are those of the signal processor's memory right now. */
    ghost function Transfer(len: nat): Xfer
      requires Shape()
      reads this, dmem, imem
    {
      Moved(spMemAddr, spDramAddr, len, dmem[..], imem[..])
    }

    /** An entry behind the others, once its payload is in the ring and its pages are marked. */
    method PushSlot(at: nat, dma: bool, ghost it: Item, j: Job)
      requires Shape() && tail == head + |pending| && |pending| < LOG_N && it.at == at && Proper(it)
      requires it.dma.Some? == dma
      requires Logged(dpLog[..], dpLogDma[..], head, payHead, pending)
      requires pending != [] ==> pending[|pending| - 1].at <= at
      requires SlotHolds(Slot(at, dma), j, it, payHead + PayTotal(pending))
      modifies this`tail, dpLog, dpLogDma
      ensures tail == old(tail) + 1
      ensures Logged(dpLog[..], dpLogDma[..], head, payHead, pending + [it])
    {
      hide Logged, SlotHolds, Proper, PayTotal, SlotOf;
      LoggedMore(dpLog[..], dpLogDma[..], head, payHead, pending, it, j);
      var t := SlotOf(tail);
      dpLogDma[t] := j;
      dpLog[t] := Slot(at, dma);
      tail := tail + 1;
      assert dpLog[..] == old(dpLog[..])[t := Slot(at, dma)] && dpLogDma[..] == old(dpLogDma[..])[t := j];
    }

    /** The log or the payload ring is full: the signal processor waits until the CPU has emptied the log, which it
        has when its clock has reached the newest entry; by then it may have gone on by `more`. */
    method MakeRoom(total: nat, more: nat)
      requires Valid() && total <= PAY_N
      modifies this`head, this`payHead, this`pgPend, this`pending, this`clock, rdram, dmaPg
      ensures Valid() && |pending| < LOG_N && PayTotal(pending) + total <= PAY_N
      ensures old(clock) <= clock && Seen() == Reach(old(Seen()), clock)
      ensures if old(|pending|) < 0x1000 && PayTotal(old(pending)) + total <= 0x10_0000
              then clock == old(clock) && pending == old(pending)
              else clock == Emptied(old(clock), old(pending), more) && pending == []
    {
      hide Paid, Indexed, Tally, Reach, SlotHolds, Due, Seen, CaughtUp;
      SeenStays();
      if payTail + total - payHead > PAY_N || tail - head >= LOG_N {
        var t := WhenEmptied(more);
        AllDue(pending, t);
        LogApply(t);
        assert PayTotal([]) == 0;
      }
    }

    /** The instant of the CPU's clock at which the wait for an empty log is over. */
    method WhenEmptied(more: nat) returns (t: nat)
      requires Valid()
      ensures t == Emptied(clock, pending, more) && clock <= t
      ensures pending != [] ==> pending[|pending| - 1].at <= t
    {
      hide Paid, Indexed, Tally, PayTotal;
      t := clock;
      if tail > head {
        SlotAt(|pending| - 1);
        var last := dpLog[SlotOf(tail - 1)].at;
        if last > t { t := last; }
      }
      t := t + more;
    }

    /** The payload goes into the ring behind the pending ones, and its pages gain an entry. */
    method Gather(sp: array<byte>, memOff: nat, j: Job, ghost it: Item) returns (memEnd: nat)
      requires Shape() && (sp == dmem || sp == imem) && memOff < SP_N && Proper(it) && it.dma.Some?
      requires payTail == payHead + PayTotal(pending) && PayTotal(pending) + PayBytes(it) <= PAY_N
      requires Paid(dmaPay[..], payHead, pending) && Indexed(dmaPg[..], pending)
      requires it.dma == Some(Xfer(j.dram, j.length, j.skip, SpBytes(sp[..], memOff, Times(j.length, j.count))))
      requires it.count == j.count
      modifies this`payTail, dmaPay, dmaPg
      ensures payTail == payHead + PayTotal(pending + [it])
      ensures Paid(dmaPay[..], payHead, pending + [it]) && Indexed(dmaPg[..], pending + [it])
      ensures memEnd == (memOff + Times(j.length, j.count)) % SP_N
    {
      hide Paid, Indexed, PayTotal, InRing, Kept, SpBytes;
      PayMore(pending, it);
      memEnd, payTail := SpRowsToRing(dmaPay, sp, memOff, j.length, j.count, payTail);
      PaidMore(old(dmaPay[..]), dmaPay[..], payHead, pending, it);
      SpanIsProduct(j.length + j.skip, j.count);
      MarkPages(dmaPg, j.dram, (j.length + j.skip) * j.count, 1);
      IndexedMore(old(dmaPg[..]), dmaPg[..], pending, it);
    }

    ghost function Entry(at: nat, len: nat): Item
      requires Shape()
      reads this, dmem, imem
    {
      Item(at, Some(Transfer(len)), RowCount(len))
    }

    /** No entry is stamped after `at`. */
    ghost predicate Newest(at: nat)
      reads this`pending
    {
      pending != [] ==> pending[|pending| - 1].at <= at
    }

    /** The two address registers move on. */
    method MoveOn(len: nat, memEnd: nat, span: nat)
      requires memEnd == (MemStart(spMemAddr) + Times(RowLength(len), RowCount(len))) % SP_N
      requires span == Times(RowLength(len) + RowSkip(len), RowCount(len))
      modifies this`spMemAddr, this`spDramAddr
      ensures spMemAddr == NextMemAddr(old(spMemAddr), len) && spDramAddr == NextDramAddr(old(spDramAddr), len)
    {
      hide Times, RowLength, RowCount, RowSkip;
      spMemAddr := (if ImemBank(spMemAddr) then 0x1000 else 0) + memEnd;
      spDramAddr := (DramStart(spDramAddr) + span) % 0x100_0000;
    }

    /** With room in the log and in the ring, the transfer of the length register is logged. */
    method Enqueue(at: nat, len: nat)
      requires Valid() && Newest(at)
      requires |pending| < LOG_N && PayTotal(pending) + Times(RowLength(len), RowCount(len)) <= PAY_N
      modifies this`spMemAddr, this`spDramAddr, this`tail, this`payTail, this`pgPend, this`pending
      modifies dpLog, dpLogDma, dmaPay, dmaPg
      ensures Valid() && Newest(at) && pending == old(pending) + [old(Entry(at, len))]
      ensures spMemAddr == NextMemAddr(old(spMemAddr), len) && spDramAddr == NextDramAddr(old(spDramAddr), len)
    {
      hide Logged, Paid, Indexed, Tally, PayTotal, SpBytes, Covers, SlotHolds, Proper, InOrder, Times;
      hide RowLength, RowCount, RowSkip, DramStart, MemStart, NextMemAddr, NextDramAddr;
      var length, count, skip := RowLength(len), RowCount(len), RowSkip(len);
      ghost var it := Entry(at, len);
      ProperTransfer(it, len);
      var j := Job(DramStart(spDramAddr), length, count, skip, payTail);
      SlotIs(it, j);
      var memEnd := Gather(if ImemBank(spMemAddr) then imem else dmem, MemStart(spMemAddr), j, it);
      SpanIsProduct(length + skip, count);
      MoveOn(len, memEnd, (length + skip) * count);
      pgPend := pgPend + 1;
      TallyIsOneMore(pending, it);
      PushSlot(at, true, it, j);
      pending := pending + [it];
    }

    /** spDmaLogPush: log the transfer, unless it is too big for the ring or lands on something being drawn. The stamp
        may lie behind the CPU's clock: then the transfer has taken place at once. */
    method SpDmaLogPush(at: nat, len: nat, drawn: bool, more: nat) returns (ok: bool)
      requires Valid() && Newest(at)
      modifies this, rdram, dpLog, dpLogDma, dmaPay, dmaPg
      ensures Valid() && Newest(at) && ok == (!drawn && Times(RowLength(len), RowCount(len)) <= 0x4_0000)
      ensures !ok ==> Seen() == old(Seen()) && pending == old(pending) && clock == old(clock)
      ensures !ok ==> spMemAddr == old(spMemAddr) && spDramAddr == old(spDramAddr)
      ensures ok ==> spMemAddr == NextMemAddr(old(spMemAddr), len) && spDramAddr == NextDramAddr(old(spDramAddr), len)
      ensures ok ==> old(clock) <= clock && pending != [] && pending[|pending| - 1] == old(Entry(at, len))
      ensures ok ==> Seen() == Reach(Appended(old(Seen()), old(Entry(at, len))), clock)
    {
      hide Valid, SpBytes, Reach, LandAll, PayTotal, RowLength, RowCount, NextMemAddr, NextDramAddr, Due;
      SpanIsProduct(RowLength(len), RowCount(len));
      if RowLength(len) * RowCount(len) > PAY_N / 4 || drawn { return false; }
      ShapeOf();
      ghost var it, g := Entry(at, len), Seen();
      MakeRoom(RowLength(len) * RowCount(len), more);
      ShapeOf();
      AppendedIs(g, Guest(rdram[..], pending), it, clock);
      Enqueue(at, len);
      return true;
    }

    /** dpLogPush for the entries that do not touch RDRAM: register writes and dated views. */
    method LogOther(at: nat, more: nat)
      requires Valid() && Newest(at)
      modifies this`head, this`tail, this`payHead, this`pgPend, this`pending, this`clock
      modifies rdram, dpLog, dpLogDma, dmaPg
      ensures Valid() && Newest(at) && old(clock) <= clock
      ensures Seen() == Reach(Appended(old(Seen()), Item(at, None, 0)), clock)
    {
      hide Paid, Indexed, Tally, PayTotal, Reach, LandAll, Logged, InRing, Due;
      ghost var it, g := Item(at, None, 0), Seen();
      MakeRoom(0, more);
      AppendedIs(g, Guest(rdram[..], pending), it, clock);
      PushSlot(at, false, it, dpLogDma[SlotOf(tail)]);
      PayMore(pending, it);
      KeptWhole(dmaPay[..], payHead + PayTotal(pending) - PAY_N, payHead + PayTotal(pending));
      PaidMore(dmaPay[..], dmaPay[..], payHead, pending, it);
      IndexedMore(dmaPg[..], dmaPg[..], pending, it);
      TallyMore(pending, it, None);
      pending := pending + [it];
    }

    /** dmaPgAny: some pending entry touches a page of [lo, hi). */
    method PagesAny(lo: nat, hi: nat) returns (any: bool)
      requires Valid() && lo < hi
      ensures !any ==> forall a: nat | lo <= a < hi && a < rdram.Length :: Clear(pending, a)
    {
      hide Valid, Clear;
      ShapeOf();
      if pgPend == 0 {
        forall a: nat | lo <= a < hi && a < rdram.Length ensures Clear(pending, a) { QuietIsClear(a); }
        return false;
      }
      var p, e := lo / PAGE, (hi - 1) / PAGE;
      while p <= e && p < PAGES
        invariant lo / PAGE <= p && forall q | lo / PAGE <= q < p :: q < PAGES && dmaPg[q] == 0
        decreases PAGES - p
      {
        if dmaPg[p] != 0 { return true; }
        p := p + 1;
      }
      forall a: nat | lo <= a < hi && a < rdram.Length ensures Clear(pending, a) {
        assert lo / PAGE <= a / PAGE <= e && a / PAGE < PAGES;
        QuietIsClear(a);
      }
      return false;
    }

    /** The signal processor waits until the log is empty if some entry in it touches a page of [lo, hi), and then for
        the CPU's clock if that is not there yet; each time the CPU may have gone on a little by then. */
    method WaitFor(lo: nat, hi: nat, at: nat, more: nat, later: nat)
      requires Valid() && Newest(at) && lo < hi
      modifies this`head, this`payHead, this`pgPend, this`pending, this`clock, rdram, dmaPg
      ensures Valid() && Newest(at) && clock >= at && clock >= old(clock) && Seen() == Reach(old(Seen()), clock)
      ensures forall a: nat | lo <= a < hi && a < rdram.Length :: Clear(pending, a)
    {
      hide Valid, Reach, Clear, Seen, Due;
      ghost var g := Seen();
      var any := PagesAny(lo, hi);
      if any {
        var t := WhenEmptied(more);
        AllToBeDue(t);
        LogApply(t);
        forall a: nat | lo <= a < hi ensures Clear(pending, a) { NothingClear(a); }
      } else {
        SeenStays();
      }
      if clock < at {
        ReachLater(g, clock, at + later);
        Tick(at + later);
      }
    }

    lemma SeenStays()
      ensures Seen() == Reach(Seen(), clock)
    {
      hide Reach;
      ReachTwice(Guest(rdram[..], pending), clock);
    }

    /** From the newest stamp on, everything is due. */
    lemma AllToBeDue(t: nat)
      requires Valid() && Newest(t)
      ensures Due(pending, t) == |pending| && pending[Due(pending, t)..] == []
    {
      hide Paid, Indexed, Tally, PayTotal, EntryHolds;
      AllDue(pending, t);
    }

    /** The other way: the signal processor waits unless the CPU is already there, and then writes RDRAM itself. */
    method SpDmaNow(at: nat, len: nat, more: nat, later: nat)
      requires Valid() && Newest(at)
      modifies this, rdram, dmaPg
      ensures Valid() && Newest(at) && clock >= at && clock >= old(clock)
      ensures Seen() == Guest(Land(Reach(old(Seen()), clock).mem, old(Transfer(len))), [])
      ensures spMemAddr == NextMemAddr(old(spMemAddr), len) && spDramAddr == NextDramAddr(old(spDramAddr), len)
    {
      hide Logged, Paid, Indexed, Tally, PayTotal, SpBytes, Reach, LandAll, Land, Hit, Clear, Times, Due, EntryHolds;
      hide RowLength, RowCount, RowSkip, DramStart, MemStart, NextMemAddr, NextDramAddr;
      ghost var x := Transfer(len);
      var length, count, skip, dram := RowLength(len), RowCount(len), RowSkip(len), DramStart(spDramAddr);
      SpanIsProduct(length + skip, count);
      SpanIsLong(length, skip, count);
      WaitFor(dram, dram + (length + skip) * count, at, more, later);
      AllToBeDue(clock);
      forall a: nat | a < rdram.Length && Hit(x, a).Some? ensures Clear(pending, a) {
        HitInside(x, count, a);
      }
      LandSeen(rdram[..], pending, clock, x);
      var memEnd, dramEnd := SpRowsToRam(rdram, if ImemBank(spMemAddr) then imem else dmem, MemStart(spMemAddr),
                                         dram, length, count, skip);
      MoveOn(len, memEnd, dramEnd - dram);
    }

    lemma QuietIsClear(a: nat)
      requires Valid() && a < rdram.Length
      requires pgPend == 0 || (a / PAGE < PAGES && dmaPg[a / PAGE] == 0)
      ensures Clear(pending, a)
    {
      hide Logged, Paid, Tally, Covers, PayTotal, Clear, InRing;
      assert dmaPg[..][a / PAGE] == dmaPg[a / PAGE];
      AllProper(dpLog[..], dpLogDma[..], head, payHead, pending);
      NothingThere(pending, a);
    }

    /** A write of SP_WR_LEN at instant `at`, logged or not, in its place behind everything stamped before it: the guest
        sees the transfer from that instant on, or from the CPU's clock if that has passed it. */
    method SpWrLen(at: nat, len: nat, drawn: bool, more: nat, later: nat) returns (logged: bool)
      requires Valid() && Newest(at)
      modifies this, rdram, dpLog, dpLogDma, dmaPay, dmaPg
      ensures Valid() && Newest(at) && old(clock) <= clock && (!logged ==> at <= clock)
      ensures Seen() == Reach(Appended(old(Seen()), old(Entry(at, len))), clock)
      ensures spMemAddr == NextMemAddr(old(spMemAddr), len) && spDramAddr == NextDramAddr(old(spDramAddr), len)
    {
      hide Valid, LandAll, Land, NextMemAddr, NextDramAddr, Due, Reach;
      ShapeOf();
      ghost var it, g := Entry(at, len), Seen();
      AllToCome(at);
      logged := SpDmaLogPush(at, len, drawn, more);
      if !logged {
        SpDmaNow(at, len, more, later);
        AppendedReach(g, it, clock);
      }
    }

    lemma AllToCome(at: nat)
      requires Valid() && Newest(at)
      ensures forall i | 0 <= i < |Seen().future| :: Seen().future[i].at <= at
    {
      hide Paid, Indexed, Tally, PayTotal, EntryHolds, LandAll;
    }
  }

  /** A store where nothing that has been passed is still to write, as the guest sees it. */
  lemma PutSeen(mem: seq<byte>, its: seq<Item>, due: seq<Item>, t: nat, lo: nat, b: seq<byte>)
    requires due == its[..Due(its, t)]
    requires lo + |b| <= |mem| && forall a: nat | lo <= a < lo + |b| :: Clear(due, a)
    ensures var g := Reach(Guest(mem, its), t);
            Reach(Guest(Put(mem, lo, b), its), t) == Guest(Put(g.mem, lo, b), g.future)
  {
    hide Clear, LandAll, Put, Due;
    PutCommutes(mem, due, lo, b);
  }

  /** A transfer that meets none of the pending ones, which are all due, as the guest sees it. */
  lemma LandSeen(mem: seq<byte>, its: seq<Item>, t: nat, x: Xfer)
    requires Apart(its, x, |mem|) && Due(its, t) == |its|
    ensures Reach(Guest(Land(mem, x), its), t) == Guest(Land(Reach(Guest(mem, its), t).mem, x), [])
  {
    hide Apart, Land, LandAll, Due;
    ApartCommutes(mem, its, x);
    assert its[..|its|] == its && its[|its|..] == [];
  }

  lemma KeptWhole(pay: seq<byte>, lo: int, hi: int)
    requires |pay| == PAY_N
    ensures Kept(pay, pay, lo, hi)
  {
  }

  lemma SpanIsLong(length: nat, skip: nat, count: nat)
    requires length > 0 && count > 0
    ensures Times(length + skip, count) > 0
  {
  }

  lemma NothingClear(a: nat)
    ensures Clear([], a)
  {
  }

  /** Once it and the others are due, the entry that was logged last has landed last. */
  lemma AppendedReach(g: Guest, it: Item, t: nat)
    requires it.at <= t && forall i | 0 <= i < |g.future| :: g.future[i].at <= t
    ensures Reach(Appended(g, it), t) == Guest(LandItem(Reach(g, t).mem, it), [])
  {
    hide Reach, LandItem;
    ReachAll(g, t);
    ReachAll(Appended(g, it), t);
    LandAllMore(g.mem, g.future, it);
  }

  lemma ReachLater(g: Guest, c: nat, t: nat)
    requires c <= t
    ensures Reach(Reach(g, c), t) == Reach(g, t)
  {
    hide Due, LandAll;
    var n := Due(g.future, c);
    var a, b := g.future[..n], g.future[n..];
    assert g.future == a + b;
    DueInParts(a, b, t);
    LandAllSplit(g.mem, a, b[..Due(b, t)]);
  }

  /** Whatever the clock has passed before an entry is logged, the guest sees the same from then on. */
  lemma AppendedThenReach(g: Guest, it: Item, c: nat, t: nat)
    requires c <= t
    ensures Reach(Appended(Reach(g, c), it), t) == Reach(Appended(g, it), t)
  {
    hide Due, LandAll;
    var f := g.future;
    var n := Due(f, c);
    var rest := f[n..] + [it];
    var m := Due(rest, t);
    assert f + [it] == f[..n] + rest;
    DueInParts(f[..n], rest, t);
    LandAllSplit(g.mem, f[..n], rest[..m]);
  }

  /** What is due of a list whose first part is. */
  lemma DueInParts(a: seq<Item>, b: seq<Item>, t: nat)
    requires forall i | 0 <= i < |a| :: a[i].at <= t
    ensures Due(a + b, t) == |a| + Due(b, t)
    ensures (a + b)[..Due(a + b, t)] == a + b[..Due(b, t)] && (a + b)[Due(a + b, t)..] == b[Due(b, t)..]
  {
    hide Due;
    DueIs(a + b, t, |a| + Due(b, t));
  }

  lemma LandAllMore(mem: seq<byte>, its: seq<Item>, it: Item)
    ensures LandAll(mem, its + [it]) == LandItem(LandAll(mem, its), it)
  {
    hide LandItem;
    assert (its + [it])[..|its|] == its;
  }

  lemma ReachAll(g: Guest, t: nat)
    requires forall i | 0 <= i < |g.future| :: g.future[i].at <= t
    ensures Reach(g, t) == Guest(LandAll(g.mem, g.future), [])
  {
    hide LandAll, Due;
    var n := |g.future|;
    DueIs(g.future, t, n);
    assert g.future[..n] == g.future && g.future[n..] == [];
  }

  ghost function Appended(g: Guest, it: Item): Guest {
    Guest(g.mem, g.future + [it])
  }

  /** An entry goes behind the pending ones: as the guest sees it, behind what was still to come. */
  lemma AppendedIs(was: Guest, g: Guest, it: Item, t: nat)
    requires Reach(g, t) == Reach(was, t)
    ensures Reach(Guest(g.mem, g.future + [it]), t) == Reach(Appended(was, it), t)
  {
    hide Reach;
    AppendedThenReach(g, it, t, t);
    AppendedThenReach(was, it, t, t);
  }

  lemma ProperTransfer(it: Item, len: nat)
    requires it.dma.Some? && it.count == RowCount(len) && it.dma.value.length == RowLength(len)
    requires |it.dma.value.bytes| == Times(it.dma.value.length, it.count)
    ensures Proper(it)
  {
  }

  lemma SlotIs(it: Item, j: Job)
    requires it.dma.Some? && var x := it.dma.value;
             j.dram == x.dram && j.length == x.length && j.count == it.count && j.skip == x.skip
    ensures SlotHolds(Slot(it.at, true), j, it, j.pay)
  {
  }

  lemma TallyIsOneMore(its: seq<Item>, it: Item)
    requires it.dma.Some?
    ensures Tally(its + [it], None) == Tally(its, None) + 1
  {
    TallyMore(its, it, None);
  }

  lemma IndexedMore(was: seq<int>, now: seq<int>, its: seq<Item>, it: Item)
    requires |was| == |now| == PAGES && Indexed(was, its)
    requires forall p: nat | p < PAGES :: now[p] == was[p] + if Covers(it, Some(p)) then 1 else 0
    ensures Indexed(now, its + [it])
  {
    hide Tally, Covers;
    forall p: nat | p < PAGES ensures now[p] == Tally(its + [it], Some(p)) {
      TallyMore(its, it, Some(p));
    }
  }

  /** The CPU's clock has passed the newest entry, and gone on by `more`. */
  function Emptied(clock: nat, its: seq<Item>, more: nat): nat {
    (if its != [] && its[|its| - 1].at > clock then its[|its| - 1].at else clock) + more
  }

  lemma AllDue(its: seq<Item>, t: nat)
    requires InOrder(its) && (its != [] ==> its[|its| - 1].at <= t)
    ensures Due(its, t) == |its| && its[Due(its, t)..] == []
  {
    DueIs(its, t, |its|);
  }

  lemma LandAllNone(mem: seq<byte>)
    ensures LandAll(mem, []) == mem
  {
  }

  lemma AllProper(log: seq<Slot>, jobs: seq<Job>, head: nat, payHead: nat, its: seq<Item>)
    requires |log| == |jobs| == LOG_N && Logged(log, jobs, head, payHead, its)
    ensures forall i | 0 <= i < |its| :: Proper(its[i])
  {
    hide SlotHolds, Proper, PayTotal;
    forall i: nat | i < |its| ensures Proper(its[i]) {
      assert EntryHolds(log, jobs, head, payHead, its, i);
    }
  }

  lemma NothingThere(its: seq<Item>, a: nat)
    requires forall i | 0 <= i < |its| :: Proper(its[i])
    requires Tally(its, None) == 0 || Tally(its, Some(a / PAGE)) == 0
    ensures Clear(its, a)
  {
    hide Tally, Hit, Proper;
    if Tally(its, None) == 0 {
      forall i | 0 <= i < |its| ensures its[i].dma.None? { ZeroTally(its, None, i); }
    } else {
      UncountedIsClear(its, a);
    }
  }

  lemma FrontIsClear(its: seq<Item>, n: nat, a: nat)
    requires n <= |its| && Clear(its, a)
    ensures Clear(its[..n], a)
  {
    hide Hit;
  }

  /** A store where no waiting entry writes can go first or last. */
  lemma PutCommutes(mem: seq<byte>, its: seq<Item>, lo: nat, b: seq<byte>)
    requires lo + |b| <= |mem| && forall a: nat | lo <= a < lo + |b| :: Clear(its, a)
    ensures LandAll(Put(mem, lo, b), its) == Put(LandAll(mem, its), lo, b)
  {
    hide Clear, LandAll, Land, Put, Hit;
    if b == [] {
      PutNothing(mem, lo);
      PutNothing(LandAll(mem, its), lo);
    } else {
      var x := Xfer(lo, |b|, 0, b);
      OneRow(mem, x);
      OneRow(LandAll(mem, its), x);
      forall a: nat | a < |mem| && Hit(x, a).Some? ensures Clear(its, a) { OneRowHits(x, a); }
      ApartCommutes(mem, its, x);
    }
  }

  lemma PutNothing(mem: seq<byte>, lo: nat)
    ensures Put(mem, lo, []) == mem
  {
  }

  lemma OneRowHits(x: Xfer, a: nat)
    requires |x.bytes| == x.length > 0 && Hit(x, a).Some?
    ensures x.dram <= a < x.dram + x.length
  {
    assert Rest(x).bytes == [];
  }

  lemma OneRow(mem: seq<byte>, x: Xfer)
    requires |x.bytes| == x.length > 0
    ensures Land(mem, x) == Put(mem, x.dram, x.bytes)
  {
    assert x.bytes[..x.length] == x.bytes;
    LandNothing(Put(mem, x.dram, x.bytes), Rest(x));
  }

  lemma DueIs(its: seq<Item>, t: nat, n: nat)
    requires n <= |its| && (forall i | 0 <= i < n :: its[i].at <= t) && (n < |its| ==> its[n].at > t)
    ensures Due(its, t) == n
  {
    hide Due;
  }

  /** One entry less on exactly the pages it touches. */
  lemma IndexedFirst(was: seq<int>, now: seq<int>, its: seq<Item>)
    requires |was| == |now| == PAGES && Indexed(was, its) && its != []
    requires forall p: nat | p < PAGES :: now[p] == was[p] - if Covers(its[0], Some(p)) then 1 else 0
    ensures Indexed(now, its[1..])
  {
    hide Tally, Covers;
    forall p: nat | p < PAGES ensures now[p] == Tally(its[1..], Some(p)) {
      TallyFirst(its, Some(p));
    }
  }
}
