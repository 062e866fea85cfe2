/** Whole runs of the deferred-DMA machine against one that defers nothing but in guest time: a transfer takes place at its
    own instant, or at once if the CPU's clock has passed that when it is logged. */
module DmaRun {
  import opened Base
  import opened DmaSpec
  import opened DmaCopy
  import opened DmaRegs
  import opened DmaLog

  /** What the CPU and the signal processor do: the CPU loads, stores, and drains the log when it retires; the other
      writes its own memories and its address registers, launches transfers, and logs writes that are none of RDRAM's
      business. `more` is how far the CPU is past the newest entry when a wait for an empty log is over, `later` how
      far past the instant for which a transfer that is not logged waits. */
  datatype Act =
    | Load(lo: nat, hi: nat)
    | Store(addr: nat, bytes: seq<byte>)
    | Retire
    | Send(len: nat, drawn: bool, more: nat, later: nat)
    | Note(more: nat)
    | Poke(imem: bool, off: nat, v: byte)
    | Aim(mem: nat, dram: nat)

  // ---- the reference machine ----

  /** A transfer waits in `guest.future` only until its instant: the CPU's next act from then on finds it done. */
  datatype Ref = Ref(guest: Guest, dmem: seq<byte>, imem: seq<byte>, memAddr: nat, dramAddr: nat)

  ghost predicate Whole(r: Ref) {
    |r.dmem| == |r.imem| == SP_N
  }

  ghost function Sent(r: Ref, len: nat, at: nat): Item
    requires Whole(r)
  {
    Item(at, Some(Moved(r.memAddr, r.dramAddr, len, r.dmem, r.imem)), RowCount(len))
  }

  ghost function Poked(mem: seq<byte>, off: nat, v: byte): seq<byte> {
    if off < |mem| then mem[off := v] else mem
  }

  ghost function RefStep(r: Ref, act: Act, at: nat): (n: Ref)
    requires Whole(r)
    ensures Whole(n) && |n.guest.mem| == |r.guest.mem|
  {
    match act
    case Load(_, _) => r.(guest := Reach(r.guest, at))
    case Retire => r.(guest := Reach(r.guest, at))
    case Store(addr, bytes) =>
      var g := Reach(r.guest, at);
      r.(guest := Guest(Put(g.mem, addr, bytes), g.future))
    case Send(len, _, _, _) =>
      r.(guest := Appended(r.guest, Sent(r, len, at)),
         memAddr := NextMemAddr(r.memAddr, len), dramAddr := NextDramAddr(r.dramAddr, len))
    case Note(_) => r.(guest := Appended(r.guest, Item(at, None, 0)))
    case Poke(imem, off, v) =>
      if imem then r.(imem := Poked(r.imem, off, v)) else r.(dmem := Poked(r.dmem, off, v))
    case Aim(mem, dram) => r.(memAddr := mem, dramAddr := dram)
  }

  ghost function RefRun(r: Ref, acts: seq<Act>, times: seq<nat>): (n: Ref)
    requires Whole(r) && |acts| == |times|
    ensures Whole(n) && |n.guest.mem| == |r.guest.mem|
    decreases |acts|
  {
    if acts == [] then r
    else
      var k := |acts| - 1;
      RefStep(RefRun(r, acts[..k], times[..k]), acts[k], times[k])
  }

  /** Loads and stores stay inside RDRAM. */
  ghost predicate Doable(act: Act, size: nat) {
    && (act.Store? ==> act.addr + |act.bytes| <= size)
    && (act.Load? ==> act.lo <= act.hi <= size)
  }

  /** What an act gives in the reference machine: the bytes under a load, at its instant. */
  ghost function RefLoad(r: Ref, act: Act, t: nat): seq<byte>
    requires Doable(act, |r.guest.mem|)
  {
    if act.Load? then Reach(r.guest, t).mem[act.lo..act.hi] else []
  }

  // ---- the run ----

  /** The machine and the reference agree on everything the guest can see from the CPU's clock on. */
  ghost predicate Agree(m: Journal, r: Ref)
    reads m, m.rdram, m.dmem, m.imem
  {
    && Whole(r) && m.Seen() == Reach(r.guest, m.clock) && |r.guest.mem| == m.rdram.Length
    && r.dmem == m.dmem[..] && r.imem == m.imem[..] && r.memAddr == m.spMemAddr && r.dramAddr == m.spDramAddr
  }

  method DoLoad(m: Journal, lo: nat, hi: nat, t: nat, ghost r: Ref) returns (b: seq<byte>)
    requires m.Valid() && Agree(m, r) && m.clock <= t && lo <= hi <= m.rdram.Length
    modifies m, m.rdram, m.dpLog, m.dpLogDma, m.dmaPay, m.dmaPg
    ensures Whole(r) && hi <= |r.guest.mem| && b == RefLoad(r, Load(lo, hi), t)
    ensures m.Left(old(m.pending))
    ensures m.Valid() && m.clock == t && Agree(m, RefStep(r, Load(lo, hi), t))
  {
    hide Journal.Valid, Journal.Seen, Reach;
    m.ShapeOf();
    ReachLater(r.guest, m.clock, t);
    ReachTwice(r.guest, t);
    b := m.CpuRead(lo, hi, t);
  }

  method DoRetire(m: Journal, t: nat, ghost r: Ref)
    requires m.Valid() && Agree(m, r) && m.clock <= t
    modifies m, m.rdram, m.dpLog, m.dpLogDma, m.dmaPay, m.dmaPg
    ensures m.Left(old(m.pending))
    ensures m.Valid() && m.clock == t && m.CaughtUp() && Agree(m, RefStep(r, Retire, t))
  {
    hide Journal.Valid, Journal.Seen, Reach, Journal.CaughtUp;
    m.ShapeOf();
    ReachLater(r.guest, m.clock, t);
    ReachTwice(r.guest, t);
    m.LogApply(t);
  }

  method DoStore(m: Journal, addr: nat, bytes: seq<byte>, t: nat, ghost r: Ref)
    requires m.Valid() && Agree(m, r) && m.clock <= t && addr + |bytes| <= m.rdram.Length
    modifies m, m.rdram, m.dpLog, m.dpLogDma, m.dmaPay, m.dmaPg
    ensures m.Left(old(m.pending))
    ensures m.Valid() && m.clock == t && Agree(m, RefStep(r, Store(addr, bytes), t))
  {
    hide Journal.Valid, Journal.Seen, Reach, Put;
    m.ShapeOf();
    ReachLater(r.guest, m.clock, t);
    StoreReached(r.guest, addr, bytes, t);
    m.CpuWrite(addr, bytes, t);
  }

  lemma StoreReached(g: Guest, addr: nat, bytes: seq<byte>, t: nat)
    ensures var h := Guest(Put(Reach(g, t).mem, addr, bytes), Reach(g, t).future);
            Reach(h, t) == h
  {
    hide LandAll, Put;
    var h := Guest(Put(Reach(g, t).mem, addr, bytes), Reach(g, t).future);
    DueIs(h.future, t, 0);
    LandAllNone(h.mem);
  }

  method DoSend(m: Journal, len: nat, drawn: bool, more: nat, later: nat, at: nat, ghost r: Ref)
    requires m.Valid() && Agree(m, r) && m.Newest(at)
    modifies m, m.rdram, m.dpLog, m.dpLogDma, m.dmaPay, m.dmaPg
    ensures m.clock >= old(m.clock)
    ensures m.Valid() && m.Newest(at) && Agree(m, RefStep(r, Send(len, drawn, more, later), at))
  {
    hide Journal.Valid, Journal.Seen, Reach, SpBytes, RowLength, RowCount, RowSkip, NextMemAddr, NextDramAddr;
    m.ShapeOf();
    ghost var it := Sent(r, len, at);
    ghost var before := m.clock;
    assert it == m.Entry(at, len);
    var logged := m.SpWrLen(at, len, drawn, more, later);
    AppendedThenReach(r.guest, it, before, m.clock);
  }

  method DoNote(m: Journal, more: nat, at: nat, ghost r: Ref)
    requires m.Valid() && Agree(m, r) && m.Newest(at)
    modifies m, m.rdram, m.dpLog, m.dpLogDma, m.dmaPay, m.dmaPg
    ensures m.clock >= old(m.clock)
    ensures m.Valid() && m.Newest(at) && Agree(m, RefStep(r, Note(more), at))
  {
    hide Journal.Valid, Journal.Seen, Reach;
    m.ShapeOf();
    ghost var before := m.clock;
    m.LogOther(at, more);
    AppendedThenReach(r.guest, Item(at, None, 0), before, m.clock);
  }

  method DoPoke(m: Journal, imem: bool, off: nat, v: byte, ghost t: nat, ghost r: Ref)
    requires m.Valid() && Agree(m, r)
    modifies m.dmem, m.imem
    ensures m.Valid() && Agree(m, RefStep(r, Poke(imem, off, v), t))
  {
    hide Reach, Logged, Paid, Indexed, LandAll, PayTotal, Tally;
    if imem {
      if off < m.imem.Length { m.imem[off] := v; }
      assert m.imem[..] == Poked(old(m.imem[..]), off, v);
    } else {
      if off < m.dmem.Length { m.dmem[off] := v; }
      assert m.dmem[..] == Poked(old(m.dmem[..]), off, v);
    }
  }

  method DoAim(m: Journal, mem: nat, dram: nat, ghost t: nat, ghost r: Ref)
    requires m.Valid() && Agree(m, r)
    modifies m`spMemAddr, m`spDramAddr
    ensures m.Valid() && Agree(m, RefStep(r, Aim(mem, dram), t))
  {
    hide Reach, Logged, Paid, Indexed, LandAll, PayTotal, Tally;
    m.spMemAddr, m.spDramAddr := mem, dram;
  }

  predicate Cpu(act: Act) { act.Load? || act.Store? || act.Retire? }

  ghost predicate StampedBy(its: seq<Item>, t: nat) {
    forall i | 0 <= i < |its| :: its[i].at <= t
  }

  lemma StampedLater(its: seq<Item>, t: nat, u: nat)
    requires StampedBy(its, t) && t <= u
    ensures StampedBy(its, u)
  {
  }

  lemma NewestAt(m: Journal, newest: nat, t: nat)
    requires newest <= t && StampedBy(m.pending, newest)
    ensures m.Newest(t)
  {
  }

  lemma StampedAt(m: Journal, t: nat)
    requires m.Valid() && m.Newest(t)
    ensures StampedBy(m.pending, t)
  {
    hide Paid, Indexed, PayTotal, Tally, EntryHolds;
  }

  lemma StampedLeft(m: Journal, was: seq<Item>, t: nat)
    requires m.Left(was) && StampedBy(was, t)
    ensures StampedBy(m.pending, t)
  {
  }

  method Do(m: Journal, act: Act, t: nat, ghost newest: nat, ghost r: Ref) returns (b: seq<byte>)
    requires m.Valid() && Agree(m, r) && Doable(act, m.rdram.Length)
    requires StampedBy(m.pending, newest) && (if Cpu(act) then m.clock <= t else newest <= t)
    modifies m, m.rdram, m.dmem, m.imem, m.dpLog, m.dpLogDma, m.dmaPay, m.dmaPg
    ensures m.Valid() && Agree(m, RefStep(r, act, t)) && (Cpu(act) ==> m.clock == t)
    ensures m.clock >= old(m.clock) && (act.Poke? || act.Aim? ==> m.clock == old(m.clock))
    ensures StampedBy(m.pending, if Cpu(act) then newest else t)
    ensures b == RefLoad(r, act, t)
  {
    hide Journal.Valid, Reach, RefStep, Journal.Seen, StampedBy, Agree;
    b := [];
    if !Cpu(act) {
      NewestAt(m, newest, t);
      StampedLater(m.pending, newest, t);
    }
    ghost var was := m.pending;
    match act {
      case Load(lo, hi) =>
        b := DoLoad(m, lo, hi, t, r);
        StampedLeft(m, was, newest);
      case Store(addr, bytes) =>
        DoStore(m, addr, bytes, t, r);
        StampedLeft(m, was, newest);
      case Retire =>
        DoRetire(m, t, r);
        StampedLeft(m, was, newest);
      case Send(len, drawn, more, later) =>
        DoSend(m, len, drawn, more, later, t, r);
        StampedAt(m, t);
      case Note(more) =>
        DoNote(m, more, t, r);
        StampedAt(m, t);
      case Poke(imem, off, v) => DoPoke(m, imem, off, v, t, r);
      case Aim(mem, dram) => DoAim(m, mem, dram, t, r);
    }
  }

  lemma RefRunStep(r: Ref, acts: seq<Act>, times: seq<nat>, k: nat, t: nat)
    requires Whole(r) && |times| == k < |acts|
    ensures RefRun(r, acts[..k + 1], times + [t]) == RefStep(RefRun(r, acts[..k], times), acts[k], t)
  {
    hide RefStep;
    assert acts[..k + 1][..k] == acts[..k] && (times + [t])[..k] == times;
  }

  /** What the k-th act of a run gives. */
  ghost function RefGives(r: Ref, acts: seq<Act>, times: seq<nat>, k: nat): seq<byte>
    requires Whole(r) && k < |acts| == |times| && Doable(acts[k], |r.guest.mem|)
  {
    RefLoad(RefRun(r, acts[..k], times[..k]), acts[k], times[k])
  }

  lemma GivesKept(r: Ref, acts: seq<Act>, times: seq<nat>, t: nat, i: nat)
    requires Whole(r) && i < |times| < |acts| && Doable(acts[i], |r.guest.mem|)
    ensures var k := |times|;
            RefGives(r, acts[..k + 1], times + [t], i) == RefGives(r, acts[..k], times, i)
  {
    hide RefLoad, RefRun;
    var k := |times|;
    assert acts[..k + 1][..i] == acts[..k][..i] && (times + [t])[..i] == times[..i];
  }

  lemma GivesNow(r: Ref, acts: seq<Act>, times: seq<nat>, t: nat)
    requires Whole(r) && |times| < |acts| && Doable(acts[|times|], |r.guest.mem|)
    ensures var k := |times|;
            RefGives(r, acts[..k + 1], times + [t], k) == RefLoad(RefRun(r, acts[..k], times), acts[k], t)
  {
    hide RefLoad, RefRun;
    var k := |times|;
    assert acts[..k + 1][..k] == acts[..k] && (times + [t])[..k] == times;
  }

  ghost predicate AllDoable(acts: seq<Act>, size: nat) {
    forall k | 0 <= k < |acts| :: Doable(acts[k], size)
  }

  /** The loads of a run so far. */
  ghost predicate Given(r: Ref, acts: seq<Act>, times: seq<nat>, loads: seq<seq<byte>>)
    requires Whole(r) && |acts| == |times| == |loads| && AllDoable(acts, |r.guest.mem|)
  {
    forall i: nat | i < |acts| :: loads[i] == RefGives(r, acts, times, i)
  }

  lemma GivenMore(r: Ref, acts: seq<Act>, times: seq<nat>, loads: seq<seq<byte>>, t: nat, b: seq<byte>)
    requires Whole(r) && |times| == |loads| < |acts| && AllDoable(acts, |r.guest.mem|)
    requires Given(r, acts[..|times|], times, loads)
    requires b == RefLoad(RefRun(r, acts[..|times|], times), acts[|times|], t)
    ensures Given(r, acts[..|times| + 1], times + [t], loads + [b])
  {
    hide RefGives, RefLoad, RefRun, Doable;
    var k := |times|;
    forall i: nat | i < k + 1 ensures (loads + [b])[i] == RefGives(r, acts[..k + 1], times + [t], i) {
      if i < k { GivesKept(r, acts, times, t, i); } else { GivesNow(r, acts, times, t); }
    }
  }

  /** The latest instant of the signal processor's acts. */
  function Top(acts: seq<Act>, times: seq<nat>): nat
    requires |acts| == |times|
    decreases |acts|
  {
    if acts == [] then 0
    else
      var k := |acts| - 1;
      if Cpu(acts[k]) then Top(acts[..k], times[..k]) else times[k]
  }

  /** The k-th act comes steps[k] after the CPU's clock if it is the CPU's, otherwise after the signal processor's own
      last act, wherever the CPU is by then; and the clock moves with the CPU's acts, and while the signal processor
      waits. */
  ghost predicate ClockedAt(acts: seq<Act>, steps: seq<nat>, times: seq<nat>, clocks: seq<nat>, k: nat)
    requires k < |acts| == |times| && |clocks| == |acts| + 1 && |acts| <= |steps|
  {
    && times[k] == steps[k] + (if Cpu(acts[k]) then clocks[k] else Top(acts[..k], times[..k]))
    && (if Cpu(acts[k]) then clocks[k + 1] == times[k]
        else if acts[k].Send? || acts[k].Note? then clocks[k] <= clocks[k + 1]
        else clocks[k + 1] == clocks[k])
  }

  ghost predicate Clocked(acts: seq<Act>, steps: seq<nat>, times: seq<nat>, clocks: seq<nat>)
    requires |acts| == |times| && |clocks| == |acts| + 1 && |acts| <= |steps|
  {
    forall k: nat | k < |acts| :: ClockedAt(acts, steps, times, clocks, k)
  }

  lemma ClockedMore(acts: seq<Act>, steps: seq<nat>, times: seq<nat>, clocks: seq<nat>, t: nat, c: nat)
    requires |times| < |acts| <= |steps| && |clocks| == |times| + 1
    requires Clocked(acts[..|times|], steps, times, clocks)
    requires var k := |times|;
             && t == steps[k] + (if Cpu(acts[k]) then clocks[k] else Top(acts[..k], times))
             && (if Cpu(acts[k]) then c == t
                 else if acts[k].Send? || acts[k].Note? then clocks[k] <= c
                 else c == clocks[k])
    ensures Clocked(acts[..|times| + 1], steps, times + [t], clocks + [c])
    ensures Top(acts[..|times| + 1], times + [t]) == if Cpu(acts[|times|]) then Top(acts[..|times|], times) else t
  {
    hide Top, Cpu;
    var k := |times|;
    var all, ts, cs := acts[..k + 1], times + [t], clocks + [c];
    assert all[..k] == acts[..k] && ts[..k] == times;
    forall i: nat | i < |all| ensures ClockedAt(all, steps, ts, cs, i) {
      if i < k {
        assert ClockedAt(acts[..k], steps, times, clocks, i);
        assert all[..i] == acts[..k][..i] && ts[..i] == times[..i];
      }
    }
    assert Top(acts[..k + 1], times + [t]) == if Cpu(acts[k]) then Top(acts[..k], times) else t by {
      TopMore(acts, times, t);
    }
  }

  lemma TopMore(acts: seq<Act>, times: seq<nat>, t: nat)
    requires |times| < |acts|
    ensures Top(acts[..|times| + 1], times + [t]) == if Cpu(acts[|times|]) then Top(acts[..|times|], times) else t
  {
    hide Cpu;
    var k := |times|;
    assert acts[..k + 1][..k] == acts[..k] && (times + [t])[..k] == times;
  }

  /** Where a run stands after its first acts. */
  ghost predicate Running(m: Journal, r: Ref, acts: seq<Act>, steps: seq<nat>, times: seq<nat>, loads: seq<seq<byte>>,
                          clocks: seq<nat>, newest: nat)
    requires m.Valid() && |times| == |loads| <= |acts| == |steps|
    reads m, m.rdram, m.dmem, m.imem, m.dpLog, m.dpLogDma, m.dmaPay, m.dmaPg
  {
    var k := |times|;
    && Whole(r) && |r.guest.mem| == m.rdram.Length && AllDoable(acts, m.rdram.Length)
    && Agree(m, RefRun(r, acts[..k], times)) && Given(r, acts[..k], times, loads)
    && StampedBy(m.pending, newest) && newest == Top(acts[..k], times)
    && |clocks| == k + 1 && clocks[k] == m.clock && Clocked(acts[..k], steps, times, clocks)
  }

  /** The next act: done, and on the books. */
  method NextAct(m: Journal, acts: seq<Act>, steps: seq<nat>, times: seq<nat>, loads: seq<seq<byte>>,
                 ghost clocks: seq<nat>, newest: nat, ghost r: Ref) returns (t: nat, b: seq<byte>, top: nat)
    requires m.Valid() && |times| == |loads| < |acts| == |steps| && Running(m, r, acts, steps, times, loads, clocks, newest)
    modifies m, m.rdram, m.dmem, m.imem, m.dpLog, m.dpLogDma, m.dmaPay, m.dmaPg
    ensures m.Valid() && Running(m, r, acts, steps, times + [t], loads + [b], clocks + [m.clock], top)
  {
    hide Journal.Valid, RefStep, Agree, StampedBy, Cpu, RefRun, Given, Doable, RefLoad, Clocked, Top;
    var k := |times|;
    t := (if Cpu(acts[k]) then m.clock else newest) + steps[k];
    top := if Cpu(acts[k]) then newest else t;
    ghost var now := RefRun(r, acts[..k], times);
    b := Do(m, acts[k], t, newest, now);
    NotBoth(acts[k]);
    ClockedMore(acts, steps, times, clocks, t, m.clock);
    RefRunStep(r, acts, times, k, t);
    GivenMore(r, acts, times, loads, t, b);
  }

  lemma NotBoth(act: Act)
    ensures Cpu(act) <==> act.Load? || act.Store? || act.Retire?
  {
  }

  /** Any program of acts, however far either side runs ahead of the other and however late the CPU applies what was
      logged: every load gives what it gives in the reference machine. `steps` says how far each side moves on
      before an act; `times` are the instants that result, the waits included, and `clocks` the CPU's clock before
      each act and at the end. */
  method Run(m: Journal, acts: seq<Act>, steps: seq<nat>, ghost r: Ref)
      returns (times: seq<nat>, loads: seq<seq<byte>>, ghost clocks: seq<nat>)
    requires m.Valid() && m.pending == [] && |steps| == |acts| && AllDoable(acts, m.rdram.Length)
    requires r == Ref(Guest(m.rdram[..], []), m.dmem[..], m.imem[..], m.spMemAddr, m.spDramAddr)
    modifies m, m.rdram, m.dmem, m.imem, m.dpLog, m.dpLogDma, m.dmaPay, m.dmaPg
    ensures m.Valid() && |times| == |loads| == |acts| && |clocks| == |acts| + 1
    ensures clocks[0] == old(m.clock) && clocks[|acts|] == m.clock && Clocked(acts, steps, times, clocks)
    ensures Whole(r) && |r.guest.mem| == m.rdram.Length && AllDoable(acts, m.rdram.Length)
    ensures Agree(m, RefRun(r, acts, times)) && Given(r, acts, times, loads)
  {
    times, loads, clocks := [], [], [m.clock];
    var newest: nat := 0;
    RunStarts(m, r, acts, steps);
    hide Journal.Valid, Running;
    for k := 0 to |acts|
      invariant |times| == |loads| == k && m.Valid() && Running(m, r, acts, steps, times, loads, clocks, newest)
      invariant |clocks| == k + 1 && clocks[0] == old(m.clock)
    {
      var t, b;
      t, b, newest := NextAct(m, acts, steps, times, loads, clocks, newest, r);
      times, loads, clocks := times + [t], loads + [b], clocks + [m.clock];
    }
    RunEnds(m, r, acts, steps, times, loads, clocks, newest);
  }

  lemma RunStarts(m: Journal, r: Ref, acts: seq<Act>, steps: seq<nat>)
    requires m.Valid() && m.pending == [] && AllDoable(acts, m.rdram.Length) && |acts| == |steps|
    requires r == Ref(Guest(m.rdram[..], []), m.dmem[..], m.imem[..], m.spMemAddr, m.spDramAddr)
    ensures Running(m, r, acts, steps, [], [], [m.clock], 0)
  {
    hide Logged, Paid, Indexed, Tally, PayTotal, LandAll;
  }

  lemma RunEnds(m: Journal, r: Ref, acts: seq<Act>, steps: seq<nat>, times: seq<nat>, loads: seq<seq<byte>>,
                clocks: seq<nat>, newest: nat)
    requires m.Valid() && |times| == |loads| == |acts| == |steps|
    requires Running(m, r, acts, steps, times, loads, clocks, newest)
    ensures |clocks| == |acts| + 1 && clocks[|acts|] == m.clock && Clocked(acts, steps, times, clocks)
    ensures Whole(r) && |r.guest.mem| == m.rdram.Length && AllDoable(acts, m.rdram.Length)
    ensures Agree(m, RefRun(r, acts, times)) && Given(r, acts, times, loads)
  {
    hide Journal.Valid, Agree, StampedBy, RefRun, Given, Doable, Clocked, Top;
    assert acts[..|acts|] == acts;
  }
}
