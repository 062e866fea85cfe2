/** The barrier that keeps the CPU from overtaking the signal processor's task, and the instant at which the end of
    that task interrupts it. */
module SpBarrier {
  import opened Arithmetic
  import opened Pace

  /** An end-of-task interrupt: launched at `kick`, `used` cycles long, raised at `at`; `early` if the next launch
      came before it was due. */
  datatype Raise = Raise(kick: nat, used: nat, at: nat, early: bool)

  class Rcp {
    const clocks: Clocks
    const lead: nat            // spLeadOps, the same as spDateOps
    var now: nat               // the CPU's clock
    var cyclesRun: nat         // the signal processor's, published as it goes
    var spKickOps: nat
    var spKickEdge: nat
    var spKickCycles: nat
    var barrier: bool          // bit 3 of rcpPend: a task is running
    var armed: bool            // bit 0: its end has an instant
    var spDoneAt: nat
    var spBarSafe: nat
    var stop: nat              // how far the CPU may go before it asks again
    ghost var used: nat        // cycles of the task whose end is armed
    ghost var raises: seq<Raise>

    /** The first operation at which the task launched at spKickOps has done cyc cycles. */
    function CycleAt(cyc: nat): nat
      requires clocks.Valid()
      reads `spKickEdge, clocks, clocks.divNum, clocks.divDen
    {
      clocks.CyclesToOps(spKickEdge + cyc)
    }

    function BarrierAt(): nat
      requires clocks.Valid() && spKickCycles <= cyclesRun
      reads `spKickEdge, `cyclesRun, `spKickCycles, clocks, clocks.divNum, clocks.divDen
    {
      CycleAt(cyclesRun - spKickCycles)
    }

    function BarrierEff(): nat
      requires clocks.Valid() && spKickCycles <= cyclesRun
      reads `spKickEdge, `cyclesRun, `spKickCycles, clocks, clocks.divNum, clocks.divDen
    {
      BarrierAt() + lead
    }

    /** The barrier in raw cycles of the signal processor. */
    function Threshold(at: nat): nat
      requires clocks.Valid()
      reads this, clocks, clocks.divNum, clocks.divDen
    {
      var t := clocks.OpsToCycles(at) + 1 + spKickCycles;
      if t > spKickEdge then t - spKickEdge else 0
    }

    /** Comparing raw cycles decides exactly what comparing instants would. */
    lemma ThresholdIs(at: nat)
      requires clocks.Sharp() && spKickCycles <= cyclesRun
      ensures at < BarrierAt() <==> cyclesRun >= Threshold(at)
    {
      clocks.Adjoint(spKickEdge + (cyclesRun - spKickCycles), at);
    }

    /** What every interrupt raised so far has in common: the instant depends on the launch and on the length of the
        task alone, and on nothing the host did. */
    ghost predicate Faithful()
      requires clocks.Valid()
      reads `raises, clocks, clocks.divNum, clocks.divDen
    {
      forall i | 0 <= i < |raises| ::
        !raises[i].early ==>
          raises[i].at == clocks.CyclesToOps(clocks.OpsToCycles(raises[i].kick) + raises[i].used) + lead
    }

    ghost predicate Valid()
      reads this, clocks, clocks.divNum, clocks.divDen
    {
      && clocks.Sharp() && spKickCycles <= cyclesRun && now <= stop
      && spKickEdge == clocks.OpsToCycles(spKickOps)
      && (barrier ==> !armed && spBarSafe <= BarrierEff())
      && (barrier ==> stop <= spKickOps || stop <= BarrierEff())
      && (armed ==> used > 0 && stop <= spDoneAt == CycleAt(used) + lead)
      && Faithful()
    }

    ghost function Shows(): View
      reads this
    {
      View(now, cyclesRun, spKickOps, spKickCycles, barrier, armed, spDoneAt, used, stop, raises)
    }

    constructor (c: Clocks, l: nat)
      requires c.Sharp()
      ensures Valid() && clocks == c && lead == l && now == 0 && !barrier && !armed && raises == []
    {
      clocks, lead := c, l;
      now, cyclesRun, spKickOps, spKickCycles, spDoneAt, spBarSafe, stop := 0, 0, 0, 0, 0, 0, 0;
      barrier, armed, used, raises := false, false, 0, [];
      spKickEdge := c.OpsToCycles(0);
    }

    /** The CPU is never past the launch and past the barrier at once. */
    lemma NeverAhead()
      requires Valid() && barrier
      ensures now <= spKickOps || now <= BarrierAt() + lead
    {
    }

    /** Publish the end of the task. */
    method Flush(early: bool)
      requires Valid() && armed && (!early ==> now == spDoneAt)
      modifies this`armed, this`raises
      ensures Valid() && !armed && raises == old(raises) + [Raise(spKickOps, used, now, early)]
    {
      hide Clocks.CyclesToOps, Clocks.OpsToCycles, PaceDiv.Valid, PaceDiv.Sharp;
      armed := false;
      raises := raises + [Raise(spKickOps, used, now, early)];
    }

    /** The CPU launches a task. An end still outstanding is published first; the shortcut is void, for the new
        barrier may lie behind the old one. */
    method Kick()
      requires Valid() && !barrier
      modifies this`armed, this`raises, this`spKickOps, this`spKickEdge, this`spKickCycles, this`barrier
      modifies this`spBarSafe, this`stop
      ensures Valid() && barrier && !armed && spKickOps == now && spKickCycles == cyclesRun
      ensures spBarSafe == 0 && stop == now
      ensures raises == old(raises) +
                        if old(armed) then [Raise(old(spKickOps), old(used), now, now < spDoneAt)] else []
    {
      hide Faithful, Clocks.Sharp, Clocks.Valid, Clocks.CyclesToOps, Clocks.OpsToCycles;
      if armed { Flush(now < spDoneAt); }
      MarkKick();
    }

    /** spMarkKick: the instant of the launch and the cycles that have been run by then; and the barrier. */
    method MarkKick()
      requires Valid() && !barrier && !armed
      modifies this`spKickOps, this`spKickEdge, this`spKickCycles, this`barrier, this`spBarSafe, this`stop
      ensures Valid() && barrier && spKickOps == now && spKickCycles == cyclesRun && spBarSafe == 0 && stop == now
    {
      assert clocks.Valid();
      hide Faithful, Clocks.Sharp, Clocks.Valid, Clocks.CyclesToOps, Clocks.OpsToCycles;
      spKickOps := now;
      spKickEdge := clocks.OpsToCycles(now);
      spKickCycles := cyclesRun;
      barrier := true;
      spBarSafe := 0;
      stop := now;
    }

    /** The signal processor has run c more cycles. */
    method Publish(c: nat)
      requires Valid() && barrier
      modifies this`cyclesRun
      ensures Valid() && cyclesRun == old(cyclesRun) + c && BarrierAt() >= old(BarrierAt())
    {
      hide Clocks.CyclesToOps, Clocks.OpsToCycles, PaceDiv.Valid, PaceDiv.Sharp;
      clocks.Monotone(spKickEdge + (cyclesRun - spKickCycles), spKickEdge + (cyclesRun + c - spKickCycles));
      cyclesRun := cyclesRun + c;
    }

    /** It reaches its BREAK: from here on the end has an instant of its own, never in the past. */
    method EndArm()
      requires Valid() && barrier && cyclesRun > spKickCycles
      modifies this`spDoneAt, this`armed, this`barrier, this`used
      ensures Valid() && armed && !barrier && used == cyclesRun - spKickCycles
      ensures now <= spDoneAt && spDoneAt == CycleAt(cyclesRun - spKickCycles) + lead
    {
      hide Clocks.CyclesToOps, Clocks.OpsToCycles, PaceDiv.Valid, PaceDiv.Sharp;
      AfterKick(cyclesRun - spKickCycles);
      used := cyclesRun - spKickCycles;
      spDoneAt := CycleAt(cyclesRun - spKickCycles) + lead;
      armed := true;
      barrier := false;
    }

    /** The instant of a cycle in the ratio alone: the first operation that lasts as long as the whole cycles up to the
        launch and those of the task together. */
    lemma InstantIs(cyc: nat, n: nat, edge: nat)
      requires clocks.Sharp() && spKickEdge == clocks.OpsToCycles(spKickOps)
      requires edge * clocks.num <= spKickOps * clocks.den < (edge + 1) * clocks.num
      ensures CycleAt(cyc) <= n <==> n * clocks.den >= (edge + cyc) * clocks.num
    {
      clocks.CyclesAreMost(spKickOps, edge);
      clocks.CyclesAreMost(spKickOps, edge + 1);
      clocks.OpsAreLeast(edge + cyc, n);
    }

    /** A cycle of the task is strictly after its launch. */
    lemma AfterKick(cyc: nat)
      requires clocks.Sharp() && spKickEdge == clocks.OpsToCycles(spKickOps) && cyc > 0
      ensures CycleAt(cyc) > spKickOps
    {
      clocks.Adjoint(spKickEdge + cyc, spKickOps);
    }

    /** Whatever the CPU has done, or may do before it asks again, it does before the instant of any cycle that the task
        has still to do, but for the lead. */
    lemma LooksAreBehind(look: nat, cyc: nat)
      requires Valid() && barrier && (look < now || look < stop) && cyc > 0 && cyc >= cyclesRun - spKickCycles
      ensures look < CycleAt(cyc) + lead
    {
      clocks.Monotone(spKickEdge + (cyclesRun - spKickCycles), spKickEdge + cyc);
      hide Clocks.CyclesToOps, Clocks.OpsToCycles, PaceDiv.Valid, PaceDiv.Sharp;
      if stop <= spKickOps { AfterKick(cyc); }
    }

    /** The CPU goes on, within what it was last allowed. */
    method Advance(n: nat)
      requires Valid() && now + n <= stop
      modifies this`now
      ensures Valid() && now == old(now) + n
    {
      hide Clocks.CyclesToOps, Clocks.OpsToCycles, PaceDiv.Valid, PaceDiv.Sharp;
      now := now + n;
    }

    /** How far the nearest deadline is. */
    function DueIn(): (d: nat)
      requires clocks.Valid() && spKickCycles <= cyclesRun && (armed || barrier)
      reads this, clocks, clocks.divNum, clocks.divDen
    {
      var d := if spDoneAt > now then spDoneAt - now else 0;
      var b := BarrierEff();
      var e := if b > now then b - now else 0;
      if armed && barrier then if e < d then e else d
      else if armed then d
      else e
    }

    /** The spin of spBarrierWait, at one instant: the raw cycles have reached the threshold. */
    method Open() returns (open: bool)
      requires Valid() && barrier
      ensures open == (now < BarrierEff())
    {
      hide Clocks.CyclesToOps, Clocks.OpsToCycles, PaceDiv.Valid, PaceDiv.Sharp;
      var threshold := if now >= lead then Threshold(now - lead) else 0;
      open := cyclesRun >= threshold;
      if now >= lead { ThresholdIs(now - lead); }
    }

    /** spBarrierWait, behind the shortcut: the value read last is remembered, and below it there is nothing to ask. */
    method BarrierWait() returns (passed: bool)
      requires Valid()
      modifies this`spBarSafe
      ensures Valid() && (passed <==> barrier ==> now < BarrierEff())
    {
      hide Faithful, Clocks.CyclesToOps, Clocks.OpsToCycles, PaceDiv.Valid, PaceDiv.Sharp;
      if !barrier || now < spBarSafe { return true; }
      spBarSafe := BarrierEff();
      if now < spBarSafe { return true; }
      passed := Open();
    }

    /** The allowance reaches to the limit or to the nearest deadline, and not past either. */
    ghost predicate Allowed(limit: nat)
      requires clocks.Valid() && spKickCycles <= cyclesRun
      reads this, clocks, clocks.divNum, clocks.divDen
    {
      && stop <= now + limit && (barrier ==> stop <= BarrierEff()) && (armed ==> stop <= spDoneAt)
      && (stop == now + limit || (barrier && stop == BarrierEff()) || (armed && stop == spDoneAt))
    }

    /** rcpRetire: the CPU asks whether it may go on. It may not exactly while a task runs and its clock has reached
        the barrier; the shortcut over spBarSafe never says otherwise. What is due is raised, at its own instant. */
    method Retire(limit: nat) returns (passed: bool)
      requires Valid()
      modifies this`spBarSafe, this`stop, this`armed, this`raises
      ensures Valid() && (passed <==> barrier ==> now < BarrierEff())
      ensures old(armed) && now >= spDoneAt ==> !armed && raises == old(raises) + [Raise(spKickOps, used, now, false)]
      ensures !(old(armed) && now >= spDoneAt) ==> armed == old(armed) && raises == old(raises)
      ensures if passed then Allowed(limit) else stop == now
    {
      hide Faithful, Clocks.CyclesToOps, Clocks.OpsToCycles, PaceDiv.Valid, PaceDiv.Sharp;
      passed := BarrierWait();
      if !passed { stop := now; return; }
      if armed && now >= spDoneAt { Flush(false); }
      Allow(limit);
    }

    /** The CPU may go on until the nearest deadline, and no further than some other one lets it. */
    method Allow(limit: nat)
      requires Valid() && (barrier ==> now < BarrierEff()) && (armed ==> now < spDoneAt)
      modifies this`stop
      ensures Valid() && Allowed(limit)
    {
      hide Faithful, Clocks.CyclesToOps, Clocks.OpsToCycles, PaceDiv.Valid, PaceDiv.Sharp;
      stop := now + limit;
      if armed || barrier {
        var due := DueIn();
        if due < limit { stop := now + due; }
      }
    }
  }

  // ---- whole runs ----

  /** The two sides' steps, in any order: launches and advances of the CPU, cycles and the end of the task of the
      signal processor, and the CPU's questions. */
  datatype Step = Launch | Work(c: nat) | Break | Go(n: nat) | Ask(limit: nat)

  /** What both sides have done so far. */
  datatype View = View(now: nat, cycles: nat, kick: nat, kickCycles: nat, running: bool, armed: bool, doneAt: nat,
                       used: nat, stop: nat, raises: seq<Raise>)

  /** The instant at which a task launched at `kick` has done cyc cycles. */
  ghost function Instant(c: Clocks, kick: nat, cyc: nat): nat
    requires c.Valid()
    reads c, c.divNum, c.divDen
  {
    c.CyclesToOps(c.OpsToCycles(kick) + cyc)
  }

  /** A step, and whether it takes place: a launch when no task runs, cycles and an end while one does, an advance within
      the allowance, and a question, answered yes while the clock is before the barrier. */
  ghost predicate Steps(r: Rcp, a: View, s: Step, did: bool, b: View)
    requires r.clocks.Valid()
    reads r.clocks, r.clocks.divNum, r.clocks.divDen
  {
    match s
    case Launch =>
      && did == !a.running
      && b == if !did then a
              else a.(running := true, kick := a.now, kickCycles := a.cycles, armed := false, stop := a.now,
                      raises := a.raises +
                                if a.armed then [Raise(a.kick, a.used, a.now, a.now < a.doneAt)] else [])
    case Work(c) => did == a.running && b == if did then a.(cycles := a.cycles + c) else a
    case Break =>
      && did == (a.running && a.cycles > a.kickCycles)
      && b == if !did then a
              else
                var cyc := a.cycles - a.kickCycles;
                a.(running := false, armed := true, used := cyc, doneAt := Instant(r.clocks, a.kick, cyc) + r.lead)
    case Go(n) => did == (a.now + n <= a.stop) && b == if did then a.(now := a.now + n) else a
    case Ask(limit) =>
      && a.kickCycles <= a.cycles
      && var bar := Instant(r.clocks, a.kick, a.cycles - a.kickCycles) + r.lead;
         && did == (a.running ==> a.now < bar)
         && b == (if did && a.armed && a.now >= a.doneAt
                  then a.(armed := false, raises := a.raises + [Raise(a.kick, a.used, a.now, false)], stop := b.stop)
                  else a.(stop := b.stop))
         && if !did then b.stop == a.now
            else
              && b.stop <= a.now + limit && (b.running ==> b.stop <= bar) && (b.armed ==> b.stop <= b.doneAt)
              && (b.stop == a.now + limit || (b.running && b.stop == bar) || (b.armed && b.stop == b.doneAt))
  }

  method DoStep(r: Rcp, s: Step) returns (did: bool)
    requires r.Valid()
    modifies r
    ensures r.Valid() && Steps(r, old(r.Shows()), s, did, r.Shows())
  {
    hide Clocks.CyclesToOps, Clocks.OpsToCycles, PaceDiv.Valid, PaceDiv.Sharp, Rcp.Faithful;
    did := false;
    match s {
      case Launch => if !r.barrier { r.Kick(); did := true; }
      case Work(c) => if r.barrier { r.Publish(c); did := true; }
      case Break => if r.barrier && r.cyclesRun > r.spKickCycles { r.EndArm(); did := true; }
      case Go(n) => if r.now + n <= r.stop { r.Advance(n); did := true; }
      case Ask(limit) => did := DoAsk(r, limit);
    }
  }

  method DoAsk(r: Rcp, limit: nat) returns (did: bool)
    requires r.Valid()
    modifies r
    ensures r.Valid() && Steps(r, old(r.Shows()), Ask(limit), did, r.Shows())
  {
    hide Clocks.CyclesToOps, Clocks.OpsToCycles, PaceDiv.Valid, PaceDiv.Sharp, Rcp.Faithful;
    did := r.Retire(limit);
  }

  /** Any interleaving, step by step: a step that cannot happen yet does not, the CPU never overtakes, no deadline is
      born in the past, and every interrupt comes at the instant that its launch and its length fix. */
  method Run(r: Rcp, steps: seq<Step>) returns (did: seq<bool>, ghost views: seq<View>)
    requires r.Valid()
    modifies r
    ensures r.Valid() && r.Faithful()
    ensures r.barrier ==> r.now <= r.spKickOps || r.now <= r.BarrierAt() + r.lead
    ensures r.armed ==> r.now <= r.spDoneAt
    ensures |did| == |steps| && |views| == |steps| + 1 && views[0] == old(r.Shows()) && views[|steps|] == r.Shows()
    ensures forall i | 0 <= i < |steps| :: Steps(r, views[i], steps[i], did[i], views[i + 1])
  {
    did, views := [], [r.Shows()];
    hide Clocks.CyclesToOps, Clocks.OpsToCycles, PaceDiv.Valid, PaceDiv.Sharp, Rcp.Faithful, Steps;
    for i := 0 to |steps|
      invariant r.Valid() && |did| == i && |views| == i + 1 && views[0] == old(r.Shows()) && views[i] == r.Shows()
      invariant forall k | 0 <= k < i :: Steps(r, views[k], steps[k], did[k], views[k + 1])
    {
      var d := DoStep(r, steps[i]);
      did, views := did + [d], views + [r.Shows()];
    }
    if r.barrier { r.NeverAhead(); }
  }

  /** What that first cycle, which the BREAK itself takes, is good for: without it the deadline would lie before the
      launch exactly when the operations since the last edge of the other clock outweigh the lead. */
  lemma EmptyTaskIsLate(r: Rcp)
    requires r.clocks.Sharp() && r.spKickEdge == r.clocks.OpsToCycles(r.spKickOps)
    ensures r.CycleAt(0) + r.lead < r.spKickOps <==>
            r.spKickOps * r.clocks.den % r.clocks.num / r.clocks.den > r.lead
  {
    var num, den, kick, edge := r.clocks.num, r.clocks.den, r.spKickOps, r.spKickEdge;
    r.clocks.divNum.NeverOvershoots(kick * den);
    r.clocks.divDen.NeverOvershoots(edge * num + den - 1);
    EdgeBack(kick, num, den, edge);
  }

  lemma EdgeBack(kick: nat, num: nat, den: nat, edge: nat)
    requires num > 0 && den > 0 && edge == kick * den / num
    ensures (edge * num + den - 1) / den == kick - kick * den % num / den
  {
    var r := kick * den % num;
    Divide(kick * den, num);
    Divide(r, den);
    Reaches(r, den, kick + 1);
    Distribute(den, kick, 1);
    Distribute(den, kick - r / den, r / den);
    Quotient(edge * num + den - 1, den, kick - r / den, den - 1 - r % den);
  }

  /** What a lead allows: from power-on, at the console's ratio, the CPU comes to stand at operation 500 when the task
      that it launched at 0 has done a cycle and is at operation 2. */
  method RunsAhead(r: Rcp)
    requires r.Valid() && !r.barrier && !r.armed && r.now == 0 && r.lead == 512
    requires r.clocks.num == 65536 && r.clocks.den == 43691
    modifies r
    ensures r.Valid() && r.barrier && r.now == 500 && r.spKickCycles + 1 == r.cyclesRun && r.CycleAt(1) == 2
  {
    FirstCycle(r.clocks);
    hide Clocks.CyclesToOps, Clocks.OpsToCycles, PaceDiv.Valid, PaceDiv.Sharp, Rcp.Faithful;
    r.Kick();
    r.Publish(1);
    GoOn(r);
  }

  method GoOn(r: Rcp)
    requires r.Valid() && r.barrier && r.now == 0 && r.lead == 512
    requires r.CycleAt(r.cyclesRun - r.spKickCycles) == 2
    modifies r
    ensures r.Valid() && r.barrier && r.now == 500
    ensures r.cyclesRun == old(r.cyclesRun) && r.spKickCycles == old(r.spKickCycles) && r.spKickEdge == old(r.spKickEdge)
  {
    hide Clocks.CyclesToOps, Clocks.OpsToCycles, PaceDiv.Valid, PaceDiv.Sharp, Rcp.Faithful;
    var passed := r.Retire(500);
    r.Advance(500);
  }

  lemma FirstCycle(c: Clocks)
    requires c.Sharp() && c.num == 65536 && c.den == 43691
    ensures c.OpsToCycles(0) == 0 && c.CyclesToOps(1) == 2
  {
    c.divNum.NeverOvershoots(0);
    c.divDen.NeverOvershoots(65536 + 43690);
  }
}
