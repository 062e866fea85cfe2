/** Guest time: what a run of the deferred-DMA machine shows is a function of the two programs alone, of what the CPU does
    when and of what the signal processor does when, and not of how the host interleaved them. This fails exactly when a
    transfer is logged behind a look of the CPU at its bytes and brings others than were found or left there. */
module DmaTime {
  import opened Base
  import opened DmaSpec
  import opened DmaCopy
  import opened DmaRegs
  import opened DmaLog
  import opened DmaRun

  // ---- the two programs ----

  datatype Dated = Dated(act: Act, at: nat)

  /** The acts of one side, without what depends on the host. */
  function Side(cpu: bool, acts: seq<Act>, times: seq<nat>): seq<Dated>
    requires |acts| == |times|
    decreases |acts|
  {
    if acts == [] then []
    else
      var k := |acts| - 1;
      Side(cpu, acts[..k], times[..k]) + if Cpu(acts[k]) == cpu then [Dated(Plain(acts[k]), times[k])] else []
  }

  function Plain(act: Act): Act {
    match act
    case Send(len, _, _, _) => Send(len, false, 0, 0)
    case Note(_) => Note(0)
    case _ => act
  }

  /** The signal processor after its program; RDRAM plays no part. */
  ghost function SpAfter(r: Ref, sp: seq<Dated>): (n: Ref)
    requires Whole(r)
    ensures Whole(n) && n.guest == r.guest
    decreases |sp|
  {
    if sp == [] then r
    else
      var k := |sp| - 1;
      RefStep(SpAfter(r, sp[..k]), sp[k].act, sp[k].at).(guest := r.guest)
  }

  /** The entries that an act logs. */
  ghost function Entries(r: Ref, d: Dated): seq<Item>
    requires Whole(r)
  {
    match d.act
    case Send(len, _, _, _) => [Sent(r, len, d.at)]
    case Note(_) => [Item(d.at, None, 0)]
    case _ => []
  }

  ghost function Pushes(r: Ref, sp: seq<Dated>): seq<Item>
    requires Whole(r)
    decreases |sp|
  {
    if sp == [] then []
    else
      var k := |sp| - 1;
      Pushes(r, sp[..k]) + Entries(SpAfter(r, sp[..k]), sp[k])
  }

  // ---- the machine in guest time ----

  /** A load and the bytes it gave, or a store and the bytes it left. */
  datatype Look = Look(at: nat, lo: nat, bytes: seq<byte>, store: bool)

  function LookAt(mem: seq<byte>, d: Dated): Look
    requires Doable(d.act, |mem|)
  {
    match d.act
    case Load(lo, hi) => Look(d.at, lo, mem[lo..hi], false)
    case Store(addr, bytes) => Look(d.at, addr, bytes, true)
    case _ => Look(d.at, 0, [], false)
  }

  function Leave(mem: seq<byte>, l: Look): (m: seq<byte>)
    ensures |m| == |mem|
  {
    if l.store then Put(mem, l.lo, l.bytes) else mem
  }

  /** RDRAM after the looks of the CPU and the entries of the signal processor, all in the order of their instants; of
      two at the same instant the entry comes first. */
  function Merged(mem: seq<byte>, cs: seq<Look>, xs: seq<Item>): (m: seq<byte>)
    ensures |m| == |mem|
    decreases |cs| + |xs|
  {
    if xs != [] && (cs == [] || cs[|cs| - 1].at < xs[|xs| - 1].at)
    then LandItem(Merged(mem, cs, xs[..|xs| - 1]), xs[|xs| - 1])
    else if cs == [] then mem
    else Leave(Merged(mem, cs[..|cs| - 1], xs), cs[|cs| - 1])
  }

  /** Everything the CPU's program finds, from RDRAM as the entries and its own stores have left it by then. */
  ghost predicate Finds(mem: seq<byte>, cpu: seq<Dated>, xs: seq<Item>, cs: seq<Look>) {
    |cs| == |cpu| && forall k: nat | k < |cs| :: FindsAt(mem, cpu, xs, cs, k)
  }

  ghost predicate FindsAt(mem: seq<byte>, cpu: seq<Dated>, xs: seq<Item>, cs: seq<Look>, k: nat)
    requires k < |cs| == |cpu|
  {
    Doable(cpu[k].act, |mem|) && cs[k] == LookAt(Merged(mem, cs[..k], xs[..Due(xs, cpu[k].at)]), cpu[k])
  }

  /** There is only one thing to find. */
  lemma {:induction false} FindsOne(mem: seq<byte>, cpu: seq<Dated>, xs: seq<Item>, a: seq<Look>, b: seq<Look>)
    requires Finds(mem, cpu, xs, a) && Finds(mem, cpu, xs, b)
    ensures a == b
  {
    SameFront(mem, cpu, xs, a, b, |cpu|);
    assert a[..|cpu|] == a && b[..|cpu|] == b;
  }

  lemma {:induction false} SameFront(mem: seq<byte>, cpu: seq<Dated>, xs: seq<Item>, a: seq<Look>, b: seq<Look>, n: nat)
    requires Finds(mem, cpu, xs, a) && Finds(mem, cpu, xs, b) && n <= |cpu|
    ensures a[..n] == b[..n]
    decreases n
  {
    hide LookAt, Merged, Due, Doable;
    if n > 0 {
      SameFront(mem, cpu, xs, a, b, n - 1);
      assert FindsAt(mem, cpu, xs, a, n - 1) && FindsAt(mem, cpu, xs, b, n - 1);
    }
  }

  // ---- the run, looked at the same way ----

  /** What the CPU finds in the reference machine of `DmaRun.Run`. */
  ghost function Looks(r: Ref, acts: seq<Act>, times: seq<nat>): seq<Look>
    requires Whole(r) && |acts| == |times| && AllDoable(acts, |r.guest.mem|)
    decreases |acts|
  {
    if acts == [] then []
    else
      var k := |acts| - 1;
      Looks(r, acts[..k], times[..k]) +
      if Cpu(acts[k]) then [LookAt(Reach(RefRun(r, acts[..k], times[..k]).guest, times[k]).mem, Dated(acts[k], times[k]))]
      else []
  }

  function LastAt(cs: seq<Look>): nat {
    if cs == [] then 0 else cs[|cs| - 1].at
  }

  /** From its last look on, the guest is where the looks and the entries so far lead in the order of their instants. */
  ghost predicate Stands(mem: seq<byte>, cs: seq<Look>, xs: seq<Item>, g: Guest) {
    var n := Due(xs, LastAt(cs));
    Reach(g, LastAt(cs)) == Guest(Merged(mem, cs, xs[..n]), xs[n..])
  }

  /** So far the run is one in guest time: the CPU has found what it would have, and will. */
  ghost predicate InGuestTime(r: Ref, acts: seq<Act>, times: seq<nat>)
    requires Whole(r) && |acts| == |times| && AllDoable(acts, |r.guest.mem|)
  {
    var cs, xs := Looks(r, acts, times), Pushes(r, Side(false, acts, times));
    Finds(r.guest.mem, Side(true, acts, times), xs, cs) && Stands(r.guest.mem, cs, xs, RefRun(r, acts, times).guest)
  }

  // ---- what goes unnoticed ----

  /** The first of the looks from instant t on. */
  function First(cs: seq<Look>, t: nat): (j: nat)
    ensures j <= |cs| && (forall i | j <= i < |cs| :: cs[i].at >= t) && (j > 0 ==> cs[j - 1].at < t)
    decreases |cs|
  {
    if cs == [] || cs[|cs| - 1].at < t then |cs| else First(cs[..|cs| - 1], t)
  }

  predicate Within(l: Look, a: nat) { l.lo <= a < l.lo + |l.bytes| }

  /** What the last of the looks that stored at address a left there. */
  function LastStore(cs: seq<Look>, a: nat): Option<byte>
    decreases |cs|
  {
    if cs == [] then None
    else
      var l := cs[|cs| - 1];
      if l.store && Within(l, a) then Some(l.bytes[a - l.lo]) else LastStore(cs[..|cs| - 1], a)
  }

  function Brings(it: Item, a: nat): Option<byte> {
    if it.dma.Some? then Hit(it.dma.value, a) else None
  }

  /** For every byte that an entry brings: each load of it from the entry's instant on that came before any store gave that
      byte, and the last store since left it. */
  ghost predicate Unnoticed(cs: seq<Look>, it: Item, size: nat) {
    forall a: nat | a < size && Brings(it, a).Some? :: UnnoticedAt(cs, First(cs, it.at), a, Brings(it, a).value)
  }

  ghost predicate UnnoticedAt(cs: seq<Look>, j: nat, a: nat, v: byte)
    requires j <= |cs|
  {
    && (forall k: nat | j <= k < |cs| :: FoundAt(cs, j, k, a, v))
    && (LastStore(cs[j..], a).Some? ==> LastStore(cs[j..], a).value == v)
  }

  ghost predicate FoundAt(cs: seq<Look>, j: nat, k: nat, a: nat, v: byte)
    requires j <= k < |cs|
  {
    !cs[k].store && Within(cs[k], a) && LastStore(cs[j..k], a).None? ==> cs[k].bytes[a - cs[k].lo] == v
  }

  // ---- an entry at a time ----

  ghost function LeaveAll(mem: seq<byte>, cs: seq<Look>): (m: seq<byte>)
    ensures |m| == |mem|
    decreases |cs|
  {
    if cs == [] then mem else Leave(LeaveAll(mem, cs[..|cs| - 1]), cs[|cs| - 1])
  }

  lemma {:induction false} LeaveAllAt(mem: seq<byte>, cs: seq<Look>, a: nat)
    requires a < |mem|
    ensures LeaveAll(mem, cs)[a] == Over(LastStore(cs, a), mem[a])
    decreases |cs|
  {
    hide Put;
    if cs != [] {
      var below, l := LeaveAll(mem, cs[..|cs| - 1]), cs[|cs| - 1];
      LeaveAllAt(mem, cs[..|cs| - 1], a);
      PutAt(below, l.lo, l.bytes, a);
    }
  }

  lemma ItemAt(mem: seq<byte>, it: Item, a: nat)
    requires a < |mem|
    ensures LandItem(mem, it)[a] == Over(Brings(it, a), mem[a])
  {
    hide Land, Hit;
    if it.dma.Some? { LandAt(mem, it.dma.value, a); }
  }

  /** Looks from the newest entry's instant on come after all of the entries. */
  lemma {:induction false} MergedTail(mem: seq<byte>, cs: seq<Look>, xs: seq<Item>, j: nat, k: nat)
    requires j <= k <= |cs| && forall i | j <= i < k :: xs != [] ==> xs[|xs| - 1].at <= cs[i].at
    ensures Merged(mem, cs[..k], xs) == LeaveAll(Merged(mem, cs[..j], xs), cs[j..k])
    decreases k
  {
    hide LandItem, Leave;
    if j < k {
      MergedTail(mem, cs, xs, j, k - 1);
      assert cs[..k][..k - 1] == cs[..k - 1] && cs[j..k][..k - 1 - j] == cs[j..k - 1];
      assert cs[..k][k - 1] == cs[j..k][k - 1 - j] == cs[k - 1];
    } else {
      assert cs[j..k] == [];
    }
  }

  /** Entries after the last look come after all of the looks. */
  lemma {:induction false} MergedLand(mem: seq<byte>, cs: seq<Look>, xs: seq<Item>, n: nat, m: nat)
    requires n <= m <= |xs| && forall i | n <= i < m :: cs != [] ==> cs[|cs| - 1].at < xs[i].at
    ensures Merged(mem, cs, xs[..m]) == LandAll(Merged(mem, cs, xs[..n]), xs[n..m])
    decreases m
  {
    hide LandItem, Leave;
    if n < m {
      MergedLand(mem, cs, xs, n, m - 1);
      assert xs[..m][..m - 1] == xs[..m - 1] && xs[n..m][..m - 1 - n] == xs[n..m - 1];
      assert xs[..m][m - 1] == xs[n..m][m - 1 - n] == xs[m - 1];
    } else {
      assert xs[n..m] == [];
    }
  }

  ghost predicate InTime(cs: seq<Look>) {
    forall i, j | 0 <= i < j < |cs| :: cs[i].at <= cs[j].at
  }

  /** RDRAM before look k, without and with an entry that belongs before look j. */
  lemma LateMerged(mem: seq<byte>, cs: seq<Look>, xs: seq<Item>, it: Item, j: nat, k: nat)
    requires StampedBy(xs, it.at) && j <= k <= |cs| && (j > 0 ==> cs[j - 1].at < it.at)
    requires forall i | j <= i < k :: it.at <= cs[i].at
    ensures Merged(mem, cs[..k], xs) == LeaveAll(Merged(mem, cs[..j], xs), cs[j..k])
    ensures Merged(mem, cs[..k], xs + [it]) == LeaveAll(LandItem(Merged(mem, cs[..j], xs), it), cs[j..k])
  {
    hide LandItem, Leave;
    MergedTail(mem, cs, xs, j, k);
    MergedTail(mem, cs, xs + [it], j, k);
    assert (xs + [it])[..|xs|] == xs;
  }

  /** A late entry leaves the find of look k as it was exactly when the bytes that it brings and that were found there
      are the same. */
  lemma LateLook(mem: seq<byte>, d: Dated, cs: seq<Look>, xs: seq<Item>, it: Item, j: nat, k: nat)
    requires StampedBy(xs, it.at) && j <= k < |cs| && (j > 0 ==> cs[j - 1].at < it.at)
    requires forall i | j <= i < k :: it.at <= cs[i].at
    requires Doable(d.act, |mem|) && cs[k] == LookAt(Merged(mem, cs[..k], xs), d)
    ensures cs[k] == LookAt(Merged(mem, cs[..k], xs + [it]), d) <==>
            forall a: nat | a < |mem| && Brings(it, a).Some? :: FoundAt(cs, j, k, a, Brings(it, a).value)
  {
    hide LandItem, Merged, LeaveAll, LastStore, Brings;
    LateMerged(mem, cs, xs, it, j, k);
    var m := Merged(mem, cs[..j], xs);
    var without, with := Merged(mem, cs[..k], xs), Merged(mem, cs[..k], xs + [it]);
    forall a: nat | a < |mem|
      ensures without[a] == Over(LastStore(cs[j..k], a), m[a])
      ensures with[a] == Over(LastStore(cs[j..k], a), Over(Brings(it, a), m[a]))
    {
      LeaveAllAt(m, cs[j..k], a);
      LeaveAllAt(LandItem(m, it), cs[j..k], a);
      ItemAt(m, it, a);
    }
    if d.act.Load? {
      SameFind(cs, it, m, without, with, d.act.lo, d.act.hi, j, k);
    }
  }

  lemma SameFind(cs: seq<Look>, it: Item, m: seq<byte>, without: seq<byte>, with: seq<byte>, lo: nat, hi: nat, j: nat, k: nat)
    requires j <= k < |cs| && |m| == |without| == |with| && lo <= hi <= |m|
    requires !cs[k].store && cs[k].lo == lo && cs[k].bytes == without[lo..hi]
    requires forall a: nat | a < |m| :: without[a] == Over(LastStore(cs[j..k], a), m[a])
    requires forall a: nat | a < |m| :: with[a] == Over(LastStore(cs[j..k], a), Over(Brings(it, a), m[a]))
    ensures without[lo..hi] == with[lo..hi] <==>
            forall a: nat | a < |m| && Brings(it, a).Some? :: FoundAt(cs, j, k, a, Brings(it, a).value)
  {
    hide LastStore, Brings;
    if without[lo..hi] == with[lo..hi] {
      forall a: nat | a < |m| && Brings(it, a).Some? ensures FoundAt(cs, j, k, a, Brings(it, a).value) {
        if lo <= a < hi { assert without[lo..hi][a - lo] == with[lo..hi][a - lo]; }
      }
    }
    if forall a: nat | a < |m| && Brings(it, a).Some? :: FoundAt(cs, j, k, a, Brings(it, a).value) {
      forall a: nat | lo <= a < hi ensures without[a] == with[a] {
        if Brings(it, a).Some? { assert FoundAt(cs, j, k, a, Brings(it, a).value); }
      }
    }
  }

  /** It leaves RDRAM the same as at its own instant exactly when the stores since have left what it brings. */
  lemma LateStand(mem: seq<byte>, cs: seq<Look>, xs: seq<Item>, it: Item, j: nat)
    requires StampedBy(xs, it.at) && j <= |cs| && (j > 0 ==> cs[j - 1].at < it.at)
    requires forall i | j <= i < |cs| :: it.at <= cs[i].at
    ensures LandItem(Merged(mem, cs, xs), it) == Merged(mem, cs, xs + [it]) <==>
            forall a: nat | a < |mem| && Brings(it, a).Some? ::
              LastStore(cs[j..], a).Some? ==> LastStore(cs[j..], a).value == Brings(it, a).value
  {
    hide LandItem, Merged, LeaveAll, LastStore, Brings;
    LateMerged(mem, cs, xs, it, j, |cs|);
    assert cs[..|cs|] == cs && cs[j..|cs|] == cs[j..];
    var m := Merged(mem, cs[..j], xs);
    var late, merged := LandItem(Merged(mem, cs, xs), it), Merged(mem, cs, xs + [it]);
    forall a: nat | a < |mem|
      ensures late[a] == Over(Brings(it, a), Over(LastStore(cs[j..], a), m[a]))
      ensures merged[a] == Over(LastStore(cs[j..], a), Over(Brings(it, a), m[a]))
    {
      LeaveAllAt(m, cs[j..], a);
      LeaveAllAt(LandItem(m, it), cs[j..], a);
      ItemAt(m, it, a);
      ItemAt(Merged(mem, cs, xs), it, a);
    }
    if late == merged {
      forall a: nat | a < |mem| && Brings(it, a).Some? && LastStore(cs[j..], a).Some?
        ensures LastStore(cs[j..], a).value == Brings(it, a).value
      {
        assert late[a] == merged[a];
      }
    }
  }

  lemma DueAppended(xs: seq<Item>, it: Item, t: nat)
    requires StampedBy(xs, it.at)
    ensures it.at > t ==> (xs + [it])[..Due(xs + [it], t)] == xs[..Due(xs, t)]
                          && (xs + [it])[Due(xs + [it], t)..] == xs[Due(xs, t)..] + [it]
    ensures it.at <= t ==> Due(xs, t) == |xs| && Due(xs + [it], t) == |xs| + 1
  {
    hide Due;
    if it.at > t {
      DueIs(xs + [it], t, Due(xs, t));
    } else {
      DueIs(xs, t, |xs|);
      DueIs(xs + [it], t, |xs| + 1);
    }
  }

  /** An entry is logged: the run stays one in guest time exactly when nobody can tell. */
  lemma PushStep(mem: seq<byte>, cpu: seq<Dated>, xs: seq<Item>, cs: seq<Look>, g: Guest, it: Item)
    requires Finds(mem, cpu, xs, cs) && Stands(mem, cs, xs, g) && StampedBy(xs, it.at) && InTime(cs)
    ensures Finds(mem, cpu, xs + [it], cs) && Stands(mem, cs, xs + [it], Appended(g, it)) <==> Unnoticed(cs, it, |mem|)
  {
    hide Finds, Stands, Unnoticed, Loaded, Stored;
    var j := First(cs, it.at);
    FindsLate(mem, cpu, xs, cs, it, j);
    StandsLate(mem, cs, xs, g, it, j);
    Halves(cs, it, j, |mem|);
  }

  /** The two halves of going unnoticed: by the loads, and by what is stored. */
  ghost predicate Loaded(cs: seq<Look>, it: Item, j: nat, size: nat)
    requires j <= |cs|
  {
    forall k: nat | j <= k < |cs| :: LoadedAt(cs, it, j, k, size)
  }

  ghost predicate LoadedAt(cs: seq<Look>, it: Item, j: nat, k: nat, size: nat)
    requires j <= k < |cs|
  {
    forall a: nat | a < size && Brings(it, a).Some? :: FoundAt(cs, j, k, a, Brings(it, a).value)
  }

  ghost predicate Stored(cs: seq<Look>, it: Item, j: nat, size: nat)
    requires j <= |cs|
  {
    forall a: nat | a < size && Brings(it, a).Some? ::
      LastStore(cs[j..], a).Some? ==> LastStore(cs[j..], a).value == Brings(it, a).value
  }

  lemma Halves(cs: seq<Look>, it: Item, j: nat, size: nat)
    requires j == First(cs, it.at)
    ensures Loaded(cs, it, j, size) && Stored(cs, it, j, size) <==> Unnoticed(cs, it, size)
  {
    hide FoundAt, LastStore, Brings, First;
    if Loaded(cs, it, j, size) && Stored(cs, it, j, size) {
      forall a: nat | a < size && Brings(it, a).Some? ensures UnnoticedAt(cs, j, a, Brings(it, a).value) {
        forall k: nat | j <= k < |cs| ensures FoundAt(cs, j, k, a, Brings(it, a).value) {
          assert LoadedAt(cs, it, j, k, size);
        }
      }
    }
    if Unnoticed(cs, it, size) {
      forall k: nat | j <= k < |cs| ensures LoadedAt(cs, it, j, k, size) {
        forall a: nat | a < size && Brings(it, a).Some? ensures FoundAt(cs, j, k, a, Brings(it, a).value) {
          assert UnnoticedAt(cs, j, a, Brings(it, a).value);
        }
      }
      forall a: nat | a < size && Brings(it, a).Some? && LastStore(cs[j..], a).Some?
        ensures LastStore(cs[j..], a).value == Brings(it, a).value
      {
        assert UnnoticedAt(cs, j, a, Brings(it, a).value);
      }
    }
  }

  /** The finds after an entry more. */
  lemma FindsLate(mem: seq<byte>, cpu: seq<Dated>, xs: seq<Item>, cs: seq<Look>, it: Item, j: nat)
    requires Finds(mem, cpu, xs, cs) && StampedBy(xs, it.at) && InTime(cs) && j == First(cs, it.at)
    ensures Finds(mem, cpu, xs + [it], cs) <==> Loaded(cs, it, j, |mem|)
  {
    hide LoadedAt, FindsAt, StampedBy, First;
    forall k: nat | k < |cs|
      ensures k < j ==> FindsAt(mem, cpu, xs + [it], cs, k)
      ensures k >= j ==> (FindsAt(mem, cpu, xs + [it], cs, k) <==> LoadedAt(cs, it, j, k, |mem|))
    {
      assert FindsAt(mem, cpu, xs, cs, k);
      FindLate(mem, cpu, xs, cs, it, j, k);
    }
  }

  lemma {:induction false} FindLate(mem: seq<byte>, cpu: seq<Dated>, xs: seq<Item>, cs: seq<Look>, it: Item, j: nat, k: nat)
    requires k < |cs| == |cpu| && FindsAt(mem, cpu, xs, cs, k) && StampedBy(xs, it.at) && InTime(cs)
    requires j == First(cs, it.at)
    ensures k < j ==> FindsAt(mem, cpu, xs + [it], cs, k)
    ensures k >= j ==> (FindsAt(mem, cpu, xs + [it], cs, k) <==> LoadedAt(cs, it, j, k, |mem|))
  {
    hide Merged, Due, Brings, FoundAt, First;
    LookIsDated(Merged(mem, cs[..k], xs[..Due(xs, cpu[k].at)]), cpu[k]);
    DueAppended(xs, it, cpu[k].at);
    if k >= j {
      hide LookAt, StampedBy;
      assert xs[..|xs|] == xs && (xs + [it])[..|xs| + 1] == xs + [it];
      LateLook(mem, cpu[k], cs, xs, it, j, k);
    }
  }

  lemma LookIsDated(mem: seq<byte>, d: Dated)
    requires Doable(d.act, |mem|)
    ensures LookAt(mem, d).at == d.at
  {
  }

  lemma NoStore()
    ensures forall a: nat :: LastStore([], a).None?
  {
  }

  lemma ReachAhead(g: Guest, it: Item, c: nat)
    requires Reach(g, c) == g && it.at > c
    ensures Reach(Appended(g, it), c) == Appended(g, it)
  {
    hide LandAll;
    var n := Due(g.future, c);
    assert |g.future[n..]| == |g.future| - n;
    DueIs(g.future + [it], c, 0);
    assert (g.future + [it])[..0] == [] && (g.future + [it])[0..] == g.future + [it];
    LandAllNone(g.mem);
  }

  /** Where an entry more leaves the guest. */
  lemma StandsLate(mem: seq<byte>, cs: seq<Look>, xs: seq<Item>, g: Guest, it: Item, j: nat)
    requires Stands(mem, cs, xs, g) && StampedBy(xs, it.at) && InTime(cs) && j == First(cs, it.at)
    ensures Stands(mem, cs, xs + [it], Appended(g, it)) <==> Stored(cs, it, j, |mem|)
  {
    hide Merged, Due, Reach, LandItem, LastStore, Brings, First;
    var c := LastAt(cs);
    AppendedThenReach(g, it, c, c);
    ReachTwice(g, c);
    DueAppended(xs, it, c);
    var h := Reach(g, c);
    if it.at > c {
      assert j == |cs| && cs[j..] == [];
      NoStore();
      ReachAhead(h, it, c);
    } else {
      assert xs[..|xs|] == xs && (xs + [it])[..|xs| + 1] == xs + [it] && (xs + [it])[|xs| + 1..] == [] == xs[|xs|..];
      AppendedReach(h, it, c);
      LateStand(mem, cs, xs, it, j);
    }
  }

  // ---- a look at a time ----

  /** Where the guest is when the CPU comes to instant t. */
  lemma SeenAt(mem: seq<byte>, cs: seq<Look>, xs: seq<Item>, g: Guest, t: nat)
    requires Stands(mem, cs, xs, g) && InOrder(xs) && LastAt(cs) <= t
    ensures Reach(g, t) == Guest(Merged(mem, cs, xs[..Due(xs, t)]), xs[Due(xs, t)..])
  {
    hide Merged, Due, LandAll;
    ReachLater(g, LastAt(cs), t);
    var n, m := Due(xs, LastAt(cs)), Due(xs, t);
    DueOrder(xs, LastAt(cs), t);
    MergedLand(mem, cs, xs, n, m);
    DueIs(xs[n..], t, m - n);
    hide InOrder;
    assert xs[n..][..m - n] == xs[n..m] && xs[n..][m - n..] == xs[m..];
  }

  lemma DueOrder(xs: seq<Item>, c: nat, t: nat)
    requires InOrder(xs) && c <= t
    ensures var n, m := Due(xs, c), Due(xs, t);
            n <= m && (forall i | n <= i < m :: c < xs[i].at <= t) && (m < |xs| ==> xs[m].at > t)
  {
    hide Due;
  }

  /** A look keeps the run one in guest time. */
  lemma LookStep(mem: seq<byte>, cpu: seq<Dated>, xs: seq<Item>, cs: seq<Look>, g: Guest, d: Dated)
    requires Finds(mem, cpu, xs, cs) && Stands(mem, cs, xs, g) && InOrder(xs) && LastAt(cs) <= d.at
    requires Doable(d.act, |mem|) && |g.mem| == |mem|
    ensures var h := Reach(g, d.at);
            var l := LookAt(h.mem, d);
            Finds(mem, cpu + [d], xs, cs + [l]) && Stands(mem, cs + [l], xs, Guest(Leave(h.mem, l), h.future))
  {
    assert |Reach(g, d.at).mem| == |g.mem|;
    hide Reach, Finds, Stands, LookAt, Leave, InOrder;
    var h := Reach(g, d.at);
    var l := LookAt(h.mem, d);
    LookStands(mem, xs, cs, g, d);
    SeenAt(mem, cs, xs, g, d.at);
    FindsMore(mem, cpu, xs, cs, d, l);
  }

  lemma FindsMore(mem: seq<byte>, cpu: seq<Dated>, xs: seq<Item>, cs: seq<Look>, d: Dated, l: Look)
    requires Finds(mem, cpu, xs, cs) && Doable(d.act, |mem|) && l == LookAt(Merged(mem, cs, xs[..Due(xs, d.at)]), d)
    ensures Finds(mem, cpu + [d], xs, cs + [l])
  {
    hide Merged, Due, LookAt, Doable;
    forall k: nat | k < |cs| + 1 ensures FindsAt(mem, cpu + [d], xs, cs + [l], k) {
      if k < |cs| {
        assert FindsAt(mem, cpu, xs, cs, k);
        assert (cs + [l])[..k] == cs[..k];
      } else {
        assert (cs + [l])[..k] == cs;
      }
    }
  }

  lemma LookStands(mem: seq<byte>, xs: seq<Item>, cs: seq<Look>, g: Guest, d: Dated)
    requires Stands(mem, cs, xs, g) && InOrder(xs) && LastAt(cs) <= d.at && Doable(d.act, |mem|) && |g.mem| == |mem|
    ensures var h := Reach(g, d.at);
            var l := LookAt(h.mem, d);
            Stands(mem, cs + [l], xs, Guest(Leave(h.mem, l), h.future))
  {
    assert |Reach(g, d.at).mem| == |g.mem|;
    hide Merged, Due, LookAt, Leave, Reach, InOrder, Stands;
    var m := Reach(g, d.at).mem;
    SeenAt(mem, cs, xs, g, d.at);
    LookIsDated(m, d);
    LeftStanding(mem, cs, xs, LookAt(m, d), m);
  }

  /** The entries by the instant of a look come before it, and the others are still to come. */
  lemma LeftStanding(mem: seq<byte>, cs: seq<Look>, xs: seq<Item>, l: Look, m: seq<byte>)
    requires m == Merged(mem, cs, xs[..Due(xs, l.at)])
    ensures Stands(mem, cs + [l], xs, Guest(Leave(m, l), xs[Due(xs, l.at)..]))
  {
    hide Merged, Due, Leave, Reach;
    MergedLook(mem, cs, l, xs, Due(xs, l.at));
    ReachedThere(Leave(m, l), xs, l.at);
  }

  lemma ReachedThere(mem: seq<byte>, xs: seq<Item>, t: nat)
    ensures Reach(Guest(mem, xs[Due(xs, t)..]), t) == Guest(mem, xs[Due(xs, t)..])
  {
    hide Due, LandAll;
    DueIs(xs[Due(xs, t)..], t, 0);
    LandAllNone(mem);
  }

  lemma MergedLook(mem: seq<byte>, cs: seq<Look>, l: Look, xs: seq<Item>, n: nat)
    requires n == Due(xs, l.at)
    ensures Merged(mem, cs + [l], xs[..n]) == Leave(Merged(mem, cs, xs[..n]), l)
  {
    assert (cs + [l])[..|cs|] == cs;
  }

  // ---- an act at a time ----

  /** Each side's acts come in the order of their instants. */
  ghost predicate Timed(acts: seq<Act>, times: seq<nat>)
    requires |acts| == |times|
  {
    forall i, j | 0 <= i < j < |acts| && Cpu(acts[i]) == Cpu(acts[j]) :: times[i] <= times[j]
  }

  lemma {:induction false} PushesBy(r: Ref, acts: seq<Act>, times: seq<nat>, t: nat)
    requires Whole(r) && |acts| == |times| && forall i | 0 <= i < |acts| && !Cpu(acts[i]) :: times[i] <= t
    ensures StampedBy(Pushes(r, Side(false, acts, times)), t)
    decreases |acts|
  {
    hide RefStep;
    if acts != [] {
      var k := |acts| - 1;
      PushesBy(r, acts[..k], times[..k], t);
      PushesMore(r, acts, times);
    }
  }

  /** What the last act adds to the looks and to the entries. */
  lemma PushesMore(r: Ref, acts: seq<Act>, times: seq<nat>)
    requires Whole(r) && |acts| == |times| > 0
    ensures var k := |acts| - 1;
            Pushes(r, Side(false, acts, times)) ==
            Pushes(r, Side(false, acts[..k], times[..k])) +
            if Cpu(acts[k]) then [] else Entries(SpAfter(r, Side(false, acts[..k], times[..k])), Dated(Plain(acts[k]), times[k]))
  {
    hide RefStep, Entries, Plain, Cpu, Side, Pushes, SpAfter;
    var k := |acts| - 1;
    var sp, d := Side(false, acts[..k], times[..k]), Dated(Plain(acts[k]), times[k]);
    SideMore(false, acts, times);
    if Cpu(acts[k]) { assert sp + [] == sp; } else { OneEntryMore(r, sp, d); }
  }

  lemma SideMore(cpu: bool, acts: seq<Act>, times: seq<nat>)
    requires |acts| == |times| > 0
    ensures var k := |acts| - 1;
            Side(cpu, acts, times) ==
            Side(cpu, acts[..k], times[..k]) + if Cpu(acts[k]) == cpu then [Dated(Plain(acts[k]), times[k])] else []
  {
    hide Plain, Cpu;
  }

  lemma OneEntryMore(r: Ref, sp: seq<Dated>, d: Dated)
    requires Whole(r)
    ensures Pushes(r, sp + [d]) == Pushes(r, sp) + Entries(SpAfter(r, sp), d)
    ensures SpAfter(r, sp + [d]) == RefStep(SpAfter(r, sp), d.act, d.at).(guest := r.guest)
  {
    hide RefStep, Entries;
    assert (sp + [d])[..|sp|] == sp;
  }

  lemma {:induction false} PushesInOrder(r: Ref, acts: seq<Act>, times: seq<nat>)
    requires Whole(r) && |acts| == |times| && Timed(acts, times)
    ensures InOrder(Pushes(r, Side(false, acts, times)))
    decreases |acts|
  {
    if acts != [] {
      hide RefStep, Pushes, Side;
      var k := |acts| - 1;
      PushesInOrder(r, acts[..k], times[..k]);
      PushesMore(r, acts, times);
      if !Cpu(acts[k]) { PushesBy(r, acts[..k], times[..k], times[k]); }
    }
  }

  lemma {:induction false} LooksBy(r: Ref, acts: seq<Act>, times: seq<nat>, t: nat)
    requires Whole(r) && |acts| == |times| && AllDoable(acts, |r.guest.mem|)
    requires forall i | 0 <= i < |acts| && Cpu(acts[i]) :: times[i] <= t
    ensures forall i | 0 <= i < |Looks(r, acts, times)| :: Looks(r, acts, times)[i].at <= t
    decreases |acts|
  {
    hide Reach, RefRun, Doable;
    if acts != [] {
      var k := |acts| - 1;
      LooksBy(r, acts[..k], times[..k], t);
    }
  }

  lemma {:induction false} LooksInTime(r: Ref, acts: seq<Act>, times: seq<nat>)
    requires Whole(r) && |acts| == |times| && AllDoable(acts, |r.guest.mem|) && Timed(acts, times)
    ensures InTime(Looks(r, acts, times))
    decreases |acts|
  {
    hide Reach, RefRun, Doable;
    if acts != [] {
      var k := |acts| - 1;
      LooksInTime(r, acts[..k], times[..k]);
      if Cpu(acts[k]) { LooksBy(r, acts[..k], times[..k], times[k]); }
    }
  }

  /** RDRAM apart, the reference machine after a run is the signal processor after its part of it. */
  lemma {:induction false} SpSame(r: Ref, acts: seq<Act>, times: seq<nat>)
    requires Whole(r) && |acts| == |times|
    ensures RefRun(r, acts, times).(guest := r.guest) == SpAfter(r, Side(false, acts, times))
    decreases |acts|
  {
    if acts != [] {
      var k := |acts| - 1;
      SpSame(r, acts[..k], times[..k]);
      SideMore(false, acts, times);
      var now, sp := RefRun(r, acts[..k], times[..k]), Side(false, acts[..k], times[..k]);
      GuestApart(now, r.guest, acts[k], times[k]);
      hide RefStep, Plain, Cpu, Side, SpAfter;
      if Cpu(acts[k]) { assert sp + [] == sp; } else { OneEntryMore(r, sp, Dated(Plain(acts[k]), times[k])); }
    }
  }

  lemma GuestApart(r: Ref, g: Guest, act: Act, t: nat)
    requires Whole(r)
    ensures Cpu(act) ==> RefStep(r, act, t).(guest := r.guest) == r
    ensures !Cpu(act) ==>
              RefStep(r, act, t).(guest := g) == RefStep(r.(guest := g), Plain(act), t).(guest := g)
  {
    hide NextMemAddr, NextDramAddr, Reach, Put, Poked;
  }

  /** Nobody can tell that act k was logged when it was. */
  ghost predicate Passes(r: Ref, acts: seq<Act>, times: seq<nat>, k: nat)
    requires Whole(r) && k < |acts| == |times| && AllDoable(acts, |r.guest.mem|)
  {
    acts[k].Send? ==>
      Unnoticed(Looks(r, acts[..k], times[..k]), Sent(RefRun(r, acts[..k], times[..k]), acts[k].len, times[k]), |r.guest.mem|)
  }

  /** The last act keeps the run one in guest time, unless it is a transfer that somebody can tell. */
  lemma ActStep(r: Ref, acts: seq<Act>, times: seq<nat>)
    requires Whole(r) && |acts| == |times| > 0 && AllDoable(acts, |r.guest.mem|) && Timed(acts, times)
    requires InGuestTime(r, acts[..|acts| - 1], times[..|acts| - 1])
    ensures InGuestTime(r, acts, times) <==> Passes(r, acts, times, |acts| - 1)
  {
    var k := |acts| - 1;
    if Cpu(acts[k]) { CpuStep(r, acts, times); } else { SpStep(r, acts, times); }
  }

  lemma CpuStep(r: Ref, acts: seq<Act>, times: seq<nat>)
    requires Whole(r) && |acts| == |times| > 0 && AllDoable(acts, |r.guest.mem|) && Timed(acts, times)
    requires InGuestTime(r, acts[..|acts| - 1], times[..|acts| - 1]) && Cpu(acts[|acts| - 1])
    ensures InGuestTime(r, acts, times)
  {
    hide Reach, Looks, LookAt, Finds, Stands, Pushes, RefRun, RefStep, Leave, Side, InOrder, Plain, Entries, SpAfter;
    var k := |acts| - 1;
    var f, tf, d := acts[..k], times[..k], Dated(acts[k], times[k]);
    var now := RefRun(r, f, tf);
    PushesInOrder(r, f, tf);
    LastBy(r, f, tf, times[k]);
    SideMore(true, acts, times);
    PushesMore(r, acts, times);
    RunMore(r, acts, times);
    LooksMore(r, acts, times);
    LookLeaves(now, acts[k], times[k]);
    var xs := Pushes(r, Side(false, f, tf));
    assert xs + [] == xs;
    LookStep(r.guest.mem, Side(true, f, tf), xs, Looks(r, f, tf), now.guest, d);
  }

  lemma LastBy(r: Ref, acts: seq<Act>, times: seq<nat>, t: nat)
    requires Whole(r) && |acts| == |times| && AllDoable(acts, |r.guest.mem|)
    requires forall i | 0 <= i < |acts| && Cpu(acts[i]) :: times[i] <= t
    ensures LastAt(Looks(r, acts, times)) <= t
  {
    hide Looks, Cpu, Doable;
    LooksBy(r, acts, times, t);
  }

  lemma RunMore(r: Ref, acts: seq<Act>, times: seq<nat>)
    requires Whole(r) && |acts| == |times| > 0
    ensures RefRun(r, acts, times) ==
            RefStep(RefRun(r, acts[..|acts| - 1], times[..|acts| - 1]), acts[|acts| - 1], times[|acts| - 1])
  {
    hide RefStep;
  }

  lemma LooksMore(r: Ref, acts: seq<Act>, times: seq<nat>)
    requires Whole(r) && |acts| == |times| > 0 && AllDoable(acts, |r.guest.mem|)
    ensures var k := |acts| - 1;
            Looks(r, acts, times) ==
            Looks(r, acts[..k], times[..k]) +
            if Cpu(acts[k])
            then [LookAt(Reach(RefRun(r, acts[..k], times[..k]).guest, times[k]).mem, Dated(acts[k], times[k]))]
            else []
  {
    hide Reach, LookAt, RefRun, Cpu, Doable;
  }

  lemma LookLeaves(r: Ref, act: Act, t: nat)
    requires Whole(r) && Doable(act, |r.guest.mem|) && Cpu(act)
    ensures Plain(act) == act
    ensures var h := Reach(r.guest, t);
            RefStep(r, act, t).guest == Guest(Leave(h.mem, LookAt(h.mem, Dated(act, t))), h.future)
  {
    hide Put, Due, LandAll;
  }

  lemma SpStep(r: Ref, acts: seq<Act>, times: seq<nat>)
    requires Whole(r) && |acts| == |times| > 0 && AllDoable(acts, |r.guest.mem|) && Timed(acts, times)
    requires InGuestTime(r, acts[..|acts| - 1], times[..|acts| - 1]) && !Cpu(acts[|acts| - 1])
    ensures InGuestTime(r, acts, times) <==> Passes(r, acts, times, |acts| - 1)
  {
    hide Reach, Looks, LookAt, Finds, Stands, Pushes, RefRun, RefStep, Leave, Side, InTime, Plain, Entries, SpAfter;
    hide Unnoticed, Sent;
    var k := |acts| - 1;
    var f, tf := acts[..k], times[..k];
    var now := RefRun(r, f, tf);
    var cs, sp := Looks(r, f, tf), Side(false, f, tf);
    var xs, es := Pushes(r, sp), Entries(SpAfter(r, sp), Dated(Plain(acts[k]), times[k]));
    PushesBy(r, f, tf, times[k]);
    LooksInTime(r, f, tf);
    SideMore(true, acts, times);
    PushesMore(r, acts, times);
    RunMore(r, acts, times);
    LooksMore(r, acts, times);
    SpSame(r, f, tf);
    EntriesOf(now, r.guest, acts[k], times[k]);
    assert cs + [] == cs && xs + [] == xs && Side(true, f, tf) + [] == Side(true, f, tf);
    if es != [] {
      PushStep(r.guest.mem, Side(true, f, tf), xs, cs, now.guest, es[0]);
      if !acts[k].Send? { NothingBrought(cs, es[0], |r.guest.mem|); }
    }
  }

  lemma NothingBrought(cs: seq<Look>, it: Item, size: nat)
    requires it.dma.None?
    ensures Unnoticed(cs, it, size)
  {
  }

  /** An act of the signal processor, as the guest sees it. */
  lemma EntriesOf(r: Ref, g: Guest, act: Act, t: nat)
    requires Whole(r) && !Cpu(act)
    ensures var es := Entries(r.(guest := g), Dated(Plain(act), t));
            && RefStep(r, act, t).guest == (if es == [] then r.guest else Appended(r.guest, es[0]))
            && (es == [] ==> !act.Send?) && |es| <= 1
            && (es != [] ==> es[0].at == t && es == [es[0]])
            && (act.Send? ==> es == [Sent(r, act.len, t)]) && (!act.Send? && es != [] ==> es[0].dma.None?)
  {
  }

  // ---- whole runs ----

  lemma Starts(r: Ref)
    requires Whole(r) && r.guest.future == []
    ensures InGuestTime(r, [], [])
  {
    hide LandAll;
    LandAllNone(r.guest.mem);
  }

  lemma StepAt(r: Ref, acts: seq<Act>, times: seq<nat>, n: nat)
    requires Whole(r) && n < |acts| == |times| && AllDoable(acts, |r.guest.mem|) && Timed(acts, times)
    requires InGuestTime(r, acts[..n], times[..n])
    ensures InGuestTime(r, acts[..n + 1], times[..n + 1]) <==> Passes(r, acts, times, n)
  {
    hide InGuestTime, Looks, RefRun, Unnoticed, Sent, Doable, Cpu;
    assert acts[..n + 1][..n] == acts[..n] && times[..n + 1][..n] == times[..n];
    ActStep(r, acts[..n + 1], times[..n + 1]);
  }

  ghost predicate AllPass(r: Ref, acts: seq<Act>, times: seq<nat>)
    requires Whole(r) && |acts| == |times| && AllDoable(acts, |r.guest.mem|)
  {
    forall k: nat | k < |acts| :: Passes(r, acts, times, k)
  }

  ghost predicate AlwaysInGuestTime(r: Ref, acts: seq<Act>, times: seq<nat>)
    requires Whole(r) && |acts| == |times| && AllDoable(acts, |r.guest.mem|)
  {
    forall n: nat | n <= |acts| :: InGuestTime(r, acts[..n], times[..n])
  }

  /** A run is one in guest time, at every moment of it, exactly when no transfer is logged behind a look at its bytes
      that found, or left there, others than it brings. */
  lemma GuestTimeIff(r: Ref, acts: seq<Act>, times: seq<nat>)
    requires Whole(r) && |acts| == |times| && AllDoable(acts, |r.guest.mem|) && Timed(acts, times)
    requires r.guest.future == []
    ensures AlwaysInGuestTime(r, acts, times) <==> AllPass(r, acts, times)
  {
    hide InGuestTime, Passes, Timed;
    if AlwaysInGuestTime(r, acts, times) {
      forall k: nat | k < |acts| ensures Passes(r, acts, times, k) {
        assert InGuestTime(r, acts[..k], times[..k]) && InGuestTime(r, acts[..k + 1], times[..k + 1]);
        StepAt(r, acts, times, k);
      }
    }
    if AllPass(r, acts, times) {
      forall n: nat | n <= |acts| ensures InGuestTime(r, acts[..n], times[..n]) { PassingSoFar(r, acts, times, n); }
    }
  }

  lemma {:induction false} PassingSoFar(r: Ref, acts: seq<Act>, times: seq<nat>, n: nat)
    requires Whole(r) && n <= |acts| == |times| && AllDoable(acts, |r.guest.mem|) && Timed(acts, times)
    requires r.guest.future == [] && AllPass(r, acts, times)
    ensures InGuestTime(r, acts[..n], times[..n])
    decreases n
  {
    hide InGuestTime, Passes, Timed;
    if n == 0 {
      Starts(r);
    } else {
      PassingSoFar(r, acts, times, n - 1);
      StepAt(r, acts, times, n - 1);
    }
  }

  /** The host does not show: two runs of the same two programs, however they are interleaved, find the same and leave
      the same. */
  lemma InterleavingsAgree(r: Ref, acts: seq<Act>, times: seq<nat>, others: seq<Act>, dates: seq<nat>, t: nat)
    requires Whole(r) && |acts| == |times| && AllDoable(acts, |r.guest.mem|) && Timed(acts, times)
    requires |others| == |dates| && AllDoable(others, |r.guest.mem|) && Timed(others, dates) && r.guest.future == []
    requires forall cpu :: Side(cpu, acts, times) == Side(cpu, others, dates)
    requires AllPass(r, acts, times) && AllPass(r, others, dates)
    requires LastAt(Looks(r, acts, times)) <= t
    ensures Looks(r, acts, times) == Looks(r, others, dates)
    ensures Reach(RefRun(r, acts, times).guest, t) == Reach(RefRun(r, others, dates).guest, t)
  {
    hide Looks, Finds, Stands, Timed, AllPass, RefRun, Pushes, Side, Reach, InOrder;
    PassingSoFar(r, acts, times, |acts|);
    PassingSoFar(r, others, dates, |others|);
    assert acts[..|acts|] == acts && times[..|acts|] == times && others[..|others|] == others && dates[..|others|] == dates;
    var mem, xs, cs := r.guest.mem, Pushes(r, Side(false, acts, times)), Looks(r, acts, times);
    FindsOne(mem, Side(true, acts, times), xs, cs, Looks(r, others, dates));
    PushesInOrder(r, acts, times);
    SeenAt(mem, cs, xs, RefRun(r, acts, times).guest, t);
    SeenAt(mem, cs, xs, RefRun(r, others, dates).guest, t);
  }

  /** A transfer stamped after every look so far, or one that nobody has looked at the bytes of since its instant. */
  lemma UntouchedPasses(cs: seq<Look>, it: Item, size: nat)
    requires forall k: nat, a: nat | First(cs, it.at) <= k < |cs| && a < size && Within(cs[k], a) :: Brings(it, a).None?
    ensures Unnoticed(cs, it, size)
  {
    hide First, Brings, LastStore;
    var j := First(cs, it.at);
    forall a: nat | a < size && Brings(it, a).Some? ensures UnnoticedAt(cs, j, a, Brings(it, a).value) {
      forall l | l in cs[j..] ensures !Within(l, a) {
        var k: nat :| j <= k < |cs| && cs[k] == l;
      }
      NotStored(cs[j..], a);
    }
  }

  lemma {:induction false} NotStored(cs: seq<Look>, a: nat)
    requires forall l | l in cs :: !Within(l, a)
    ensures LastStore(cs, a).None?
    decreases |cs|
  {
    if cs != [] { NotStored(cs[..|cs| - 1], a); }
  }

  /** Every transfer is stamped after all that the CPU has looked at when it is logged, as with a barrier that gives no
      lead (`SpBarrier.Rcp.LooksAreBehind`). */
  ghost predicate Ahead(acts: seq<Act>, times: seq<nat>)
    requires |acts| == |times|
  {
    forall i, k | 0 <= i < k < |acts| && Cpu(acts[i]) && acts[k].Send? :: times[i] < times[k]
  }

  lemma AheadPasses(r: Ref, acts: seq<Act>, times: seq<nat>)
    requires Whole(r) && |acts| == |times| && AllDoable(acts, |r.guest.mem|) && Ahead(acts, times)
    ensures AllPass(r, acts, times)
  {
    hide Looks, RefRun, Unnoticed, Sent, Doable, Cpu, First;
    forall k: nat | k < |acts| ensures Passes(r, acts, times, k) {
      if acts[k].Send? {
        var cs, it := Looks(r, acts[..k], times[..k]), Sent(RefRun(r, acts[..k], times[..k]), acts[k].len, times[k]);
        SentAt(RefRun(r, acts[..k], times[..k]), acts[k].len, times[k]);
        if times[k] > 0 { LooksBy(r, acts[..k], times[..k], times[k] - 1); } else { NoLooks(r, acts[..k], times[..k]); }
        UntouchedPasses(cs, it, |r.guest.mem|);
      }
    }
  }

  lemma SentAt(r: Ref, len: nat, at: nat)
    requires Whole(r)
    ensures Sent(r, len, at).at == at
  {
  }

  lemma {:induction false} NoLooks(r: Ref, acts: seq<Act>, times: seq<nat>)
    requires Whole(r) && |acts| == |times| && AllDoable(acts, |r.guest.mem|) && forall i | 0 <= i < |acts| :: !Cpu(acts[i])
    ensures Looks(r, acts, times) == []
    decreases |acts|
  {
    hide Reach, RefRun, Doable;
    if acts != [] { NoLooks(r, acts[..|acts| - 1], times[..|acts| - 1]); }
  }

  // ---- what the loads of a run give ----

  lemma {:induction false} AsMany(r: Ref, acts: seq<Act>, times: seq<nat>)
    requires Whole(r) && |acts| == |times| && AllDoable(acts, |r.guest.mem|)
    ensures |Side(true, acts, times)| == |Looks(r, acts, times)|
    decreases |acts|
  {
    if acts != [] {
      hide Looks, Side, RefRun, Reach, LookAt, Plain, Cpu, Doable;
      var k := |acts| - 1;
      AsMany(r, acts[..k], times[..k]);
      LooksMore(r, acts, times);
      SideMore(true, acts, times);
    }
  }

  /** Where the look of act i stands among the looks. */
  lemma {:induction false} Place(r: Ref, acts: seq<Act>, times: seq<nat>, i: nat)
    requires Whole(r) && i < |acts| == |times| && AllDoable(acts, |r.guest.mem|) && Cpu(acts[i])
    ensures var cs, now := Looks(r, acts[..i], times[..i]), RefRun(r, acts[..i], times[..i]);
            && |cs| < |Looks(r, acts, times)| && Looks(r, acts, times)[..|cs|] == cs
            && Looks(r, acts, times)[|cs|] == LookAt(Reach(now.guest, times[i]).mem, Dated(acts[i], times[i]))
    decreases |acts|
  {
    hide Looks, RefRun, Reach, LookAt, Cpu, Doable;
    var k := |acts| - 1;
    LooksMore(r, acts, times);
    if i < k {
      Place(r, acts[..k], times[..k], i);
      assert acts[..k][..i] == acts[..i] && times[..k][..i] == times[..i];
    }
  }

  lemma {:induction false} SidePlace(acts: seq<Act>, times: seq<nat>, i: nat)
    requires i < |acts| == |times| && Cpu(acts[i])
    ensures var n := |Side(true, acts[..i], times[..i])|;
            n < |Side(true, acts, times)| && Side(true, acts, times)[n] == Dated(acts[i], times[i])
    decreases |acts|
  {
    PlainCpu(acts[i]);
    hide Side, Plain, Cpu;
    var k := |acts| - 1;
    SideMore(true, acts, times);
    if i < k {
      SidePlace(acts[..k], times[..k], i);
      assert acts[..k][..i] == acts[..i] && times[..k][..i] == times[..i];
    }
  }

  lemma PlainCpu(act: Act)
    requires Cpu(act)
    ensures Plain(act) == act
  {
  }

  /** What a load gives in guest time: its bytes of RDRAM after the CPU's own stores before it and every entry that the
      signal processor ever stamps with its instant or an earlier one, whenever that is logged. */
  ghost function GuestLoad(r: Ref, acts: seq<Act>, times: seq<nat>, i: nat): seq<byte>
    requires Whole(r) && i < |acts| == |times| && AllDoable(acts, |r.guest.mem|) && acts[i].Load?
  {
    var xs := Pushes(r, Side(false, acts, times));
    Merged(r.guest.mem, Looks(r, acts[..i], times[..i]), xs[..Due(xs, times[i])])[acts[i].lo..acts[i].hi]
  }

  lemma LoadInGuestTime(r: Ref, acts: seq<Act>, times: seq<nat>, i: nat)
    requires Whole(r) && i < |acts| == |times| && AllDoable(acts, |r.guest.mem|) && acts[i].Load?
    requires InGuestTime(r, acts, times)
    ensures RefGives(r, acts, times, i) == GuestLoad(r, acts, times, i)
  {
    hide Looks, RefRun, Reach, Merged, Due, Side, Pushes, Stands;
    Place(r, acts, times, i);
    SidePlace(acts, times, i);
    AsMany(r, acts[..i], times[..i]);
    assert FindsAt(r.guest.mem, Side(true, acts, times), Pushes(r, Side(false, acts, times)), Looks(r, acts, times),
                   |Looks(r, acts[..i], times[..i])|);
  }

  lemma ClockedIsTimed(acts: seq<Act>, steps: seq<nat>, times: seq<nat>, clocks: seq<nat>)
    requires |acts| == |times| == |steps| && |clocks| == |acts| + 1 && Clocked(acts, steps, times, clocks)
    ensures Timed(acts, times)
  {
    forall i, j | 0 <= i < j < |acts| && Cpu(acts[i]) == Cpu(acts[j]) ensures times[i] <= times[j] {
      ClocksRise(acts, steps, times, clocks, i + 1, j);
      if !Cpu(acts[i]) { TopsRise(acts, steps, times, clocks, i, j); }
      assert ClockedAt(acts, steps, times, clocks, i) && ClockedAt(acts, steps, times, clocks, j);
    }
  }

  lemma {:induction false} ClocksRise(acts: seq<Act>, steps: seq<nat>, times: seq<nat>, clocks: seq<nat>, i: nat, j: nat)
    requires |acts| == |times| == |steps| && |clocks| == |acts| + 1 && Clocked(acts, steps, times, clocks)
    requires i <= j <= |acts|
    ensures clocks[i] <= clocks[j]
    decreases j
  {
    hide Top;
    if i < j {
      ClocksRise(acts, steps, times, clocks, i, j - 1);
      assert ClockedAt(acts, steps, times, clocks, j - 1);
    }
  }

  lemma {:induction false} TopsRise(acts: seq<Act>, steps: seq<nat>, times: seq<nat>, clocks: seq<nat>, i: nat, j: nat)
    requires |acts| == |times| == |steps| && |clocks| == |acts| + 1 && Clocked(acts, steps, times, clocks)
    requires i < j <= |acts| && !Cpu(acts[i])
    ensures times[i] <= Top(acts[..j], times[..j])
    decreases j
  {
    assert acts[..j][..j - 1] == acts[..j - 1] && times[..j][..j - 1] == times[..j - 1];
    assert ClockedAt(acts, steps, times, clocks, j - 1);
    if i < j - 1 { TopsRise(acts, steps, times, clocks, i, j - 1); }
  }

  /** Any program, however the two sides are interleaved: if every transfer that comes late passes unnoticed, the loads
      are those of guest time. */
  method RunInGuestTime(m: Journal, acts: seq<Act>, steps: seq<nat>, ghost r: Ref)
      returns (times: seq<nat>, loads: seq<seq<byte>>)
    requires m.Valid() && m.pending == [] && |steps| == |acts| && AllDoable(acts, m.rdram.Length)
    requires r == Ref(Guest(m.rdram[..], []), m.dmem[..], m.imem[..], m.spMemAddr, m.spDramAddr)
    modifies m, m.rdram, m.dmem, m.imem, m.dpLog, m.dpLogDma, m.dmaPay, m.dmaPg
    ensures m.Valid() && |times| == |loads| == |acts| && Timed(acts, times)
    ensures Whole(r) && AllDoable(acts, |r.guest.mem|)
    ensures AlwaysInGuestTime(r, acts, times) <==> AllPass(r, acts, times)
    ensures AllPass(r, acts, times) ==>
              forall i: nat | i < |acts| && acts[i].Load? :: loads[i] == GuestLoad(r, acts, times, i)
  {
    hide Looks, RefRun, RefGives, GuestLoad, Passes, InGuestTime, Doable, Journal.Valid, Clocked, Agree, Timed;
    ghost var clocks;
    times, loads, clocks := Run(m, acts, steps, r);
    ClockedIsTimed(acts, steps, times, clocks);
    GuestTimeIff(r, acts, times);
    if AllPass(r, acts, times) {
      assert acts[..|acts|] == acts && times[..|acts|] == times;
      assert InGuestTime(r, acts[..|acts|], times[..|acts|]);
      forall i: nat | i < |acts| && acts[i].Load? ensures loads[i] == GuestLoad(r, acts, times, i) {
        LoadInGuestTime(r, acts, times, i);
      }
    }
  }

  // ---- without stores, everything ends in the order of the pushes ----

  ghost predicate Ends(mem: seq<byte>, xs: seq<Item>, g: Guest) {
    LandAll(g.mem, g.future) == LandAll(mem, xs)
  }

  lemma EndsReach(mem: seq<byte>, xs: seq<Item>, g: Guest, t: nat)
    requires Ends(mem, xs, g)
    ensures Ends(mem, xs, Reach(g, t))
  {
    hide LandAll, Due;
    var n := Due(g.future, t);
    assert g.future[..n] + g.future[n..] == g.future;
    LandAllSplit(g.mem, g.future[..n], g.future[n..]);
  }

  lemma EndsMore(mem: seq<byte>, xs: seq<Item>, g: Guest, it: Item)
    requires Ends(mem, xs, g)
    ensures Ends(mem, xs + [it], Appended(g, it))
  {
    hide LandAll, LandItem;
    LandAllMore(g.mem, g.future, it);
    LandAllMore(mem, xs, it);
  }

  lemma {:induction false} AllEnds(r: Ref, acts: seq<Act>, times: seq<nat>, t: nat)
    requires Whole(r) && |acts| == |times| && r.guest.future == [] && forall i | 0 <= i < |acts| :: !acts[i].Store?
    requires forall i | 0 <= i < |acts| && !Cpu(acts[i]) :: times[i] <= t
    ensures Ends(r.guest.mem, Pushes(r, Side(false, acts, times)), RefRun(r, acts, times).guest)
    ensures StampedBy(RefRun(r, acts, times).guest.future, t)
    decreases |acts|
  {
    if acts != [] {
      var k := |acts| - 1;
      var f, tf := acts[..k], times[..k];
      var now, sp := RefRun(r, f, tf), Side(false, f, tf);
      AllEnds(r, f, tf, t);
      RunMore(r, acts, times);
      PushesMore(r, acts, times);
      SpSame(r, f, tf);
      EndsReach(r.guest.mem, Pushes(r, sp), now.guest, times[k]);
      StampedStep(now, acts[k], times[k], t);
      hide Ends, Pushes, Side, RefRun, SpAfter, Plain, StampedBy, Entries;
      if Cpu(acts[k]) {
        hide Reach, LandAll;
        assert Pushes(r, sp) + [] == Pushes(r, sp);
      } else {
        EntriesOf(now, r.guest, acts[k], times[k]);
        hide RefStep, Sent, Cpu;
        var es := Entries(SpAfter(r, sp), Dated(Plain(acts[k]), times[k]));
        if es == [] { assert Pushes(r, sp) + [] == Pushes(r, sp); } else { EndsMore(r.guest.mem, Pushes(r, sp), now.guest, es[0]); }
      }
    }
  }

  lemma StampedStep(r: Ref, act: Act, at: nat, t: nat)
    requires Whole(r) && StampedBy(r.guest.future, t) && (!Cpu(act) ==> at <= t)
    ensures StampedBy(RefStep(r, act, at).guest.future, t)
  {
    hide LandAll, Put;
  }

  /** With no other writer, RDRAM ends as if every transfer had been carried out at once, in the order of the pushes; late
      or not. */
  lemma EndsAsPushed(r: Ref, acts: seq<Act>, times: seq<nat>, t: nat)
    requires Whole(r) && |acts| == |times| && r.guest.future == [] && forall i | 0 <= i < |acts| :: !acts[i].Store?
    requires forall i | 0 <= i < |acts| && !Cpu(acts[i]) :: times[i] <= t
    ensures Reach(RefRun(r, acts, times).guest, t) ==
            Guest(LandAll(r.guest.mem, Pushes(r, Side(false, acts, times))), [])
  {
    hide RefRun, Reach, Pushes, Side, LandAll;
    AllEnds(r, acts, times, t);
    ReachAll(RefRun(r, acts, times).guest, t);
  }

  // ---- a late transfer ----

  /** The CPU loads at instant 300; the signal processor, which is still at instant 2, then sends eight bytes to the same
      place. In guest time the load finds those; in the run it found the old ones. */
  lemma LateTransfer(r: Ref, acts: seq<Act>, times: seq<nat>)
    requires Whole(r) && r.guest.future == [] && |r.guest.mem| >= 8 && r.memAddr == r.dramAddr == 0
    requires r.dmem[0] != r.guest.mem[0]
    requires acts == [Load(0, 8), Send(7, false, 0, 0)] && times == [300, 2]
    ensures AllDoable(acts, |r.guest.mem|) && Timed(acts, times) && !AllPass(r, acts, times)
    ensures RefGives(r, acts, times, 0) == r.guest.mem[..8] != r.dmem[..8] == GuestLoad(r, acts, times, 0)
  {
    hide Looks, RefRun, Unnoticed, Side, Pushes, Reach, Sent, SpAfter, LandItem;
    var mem, it := r.guest.mem, Item(2, Some(Xfer(0, 8, 0, r.dmem[..8])), 1);
    var f, tf := acts[..1], times[..1];
    assert f == [Load(0, 8)] && tf == [300] && acts[..0] == [] && times[..0] == [];
    NothingYet(r, 300);
    LookAlone(r, f, tf);
    EightBytes(r);
    OneRowLands(mem, it);
    assert mem[..8][0] != r.dmem[..8][0];
    NotPassed(mem, it);
    assert !Passes(r, acts, times, 1);
    PushAlone(r, acts, times, it);
    MergedAlone(mem, it, 300);
    NoneBefore(r);
  }

  lemma NoneBefore(r: Ref)
    requires Whole(r)
    ensures RefRun(r, [], []) == r && Looks(r, [], []) == []
  {
  }

  lemma MergedAlone(mem: seq<byte>, it: Item, t: nat)
    requires it.at <= t
    ensures Merged(mem, [], [it][..Due([it], t)]) == LandItem(mem, it)
  {
    hide LandItem;
    DueIs([it], t, 1);
    assert [it][..1] == [it] && [it][..0] == [];
  }

  lemma NothingYet(r: Ref, t: nat)
    requires r.guest.future == []
    ensures Reach(r.guest, t) == r.guest
  {
    hide LandAll;
    LandAllNone(r.guest.mem);
  }

  lemma LookAlone(r: Ref, acts: seq<Act>, times: seq<nat>)
    requires Whole(r) && |acts| == |times| == 1 && AllDoable(acts, |r.guest.mem|) && acts[0].Load?
    requires Reach(r.guest, times[0]) == r.guest
    ensures RefRun(r, acts, times) == r && Looks(r, acts, times) == [LookAt(r.guest.mem, Dated(acts[0], times[0]))]
  {
    RunMore(r, acts, times);
    LooksMore(r, acts, times);
    NoneBefore(r);
    hide Reach, RefRun, Looks;
    assert acts[..0] == [] && times[..0] == [];
  }

  lemma EightBytes(r: Ref)
    requires Whole(r) && r.memAddr == r.dramAddr == 0
    ensures Sent(r, 7, 2) == Item(2, Some(Xfer(0, 8, 0, r.dmem[..8])), 1)
  {
    assert RowLength(7) == 8 && RowCount(7) == 1 && RowSkip(7) == 0 && Times(8, 1) == 8;
    assert SpBytes(r.dmem, 0, 8) == r.dmem[..8];
  }

  lemma PushAlone(r: Ref, acts: seq<Act>, times: seq<nat>, it: Item)
    requires Whole(r) && acts == [Load(0, 8), Send(7, false, 0, 0)] && times == [300, 2] && Sent(r, 7, 2) == it
    ensures Pushes(r, Side(false, acts, times)) == [it]
  {
    hide Sent;
    var d := Dated(Send(7, false, 0, 0), 2);
    assert acts[..1] == [Load(0, 8)] && times[..1] == [300] && acts[..1][..0] == [] && times[..1][..0] == [];
    assert Side(false, acts[..1], times[..1]) == [];
    assert [d][..0] == [] && [] + [d] == [d] && SpAfter(r, []) == r;
  }

  lemma OneRowLands(mem: seq<byte>, it: Item)
    requires |mem| >= 8 && it.dma.Some? && it.dma.value.dram == 0 && it.dma.value.length == 8 == |it.dma.value.bytes|
    ensures LandItem(mem, it)[..8] == it.dma.value.bytes && Brings(it, 0) == Some(it.dma.value.bytes[0])
  {
    var x := it.dma.value;
    OneRow(mem, x);
    assert Rest(x).bytes == [] && Hit(Rest(x), 0).None?;
  }

  lemma NotPassed(mem: seq<byte>, it: Item)
    requires |mem| >= 8 && it.at == 2 && Brings(it, 0).Some? && Brings(it, 0).value != mem[0]
    ensures !Unnoticed([Look(300, 0, mem[0..8], false)], it, |mem|)
  {
    hide Brings;
    var cs := [Look(300, 0, mem[0..8], false)];
    assert First(cs, 2) == 0 by { assert cs[..0] == []; }
    assert LastStore(cs[0..0], 0).None?;
    assert !FoundAt(cs, 0, 0, 0, Brings(it, 0).value);
    assert !UnnoticedAt(cs, 0, 0, Brings(it, 0).value);
  }
}
