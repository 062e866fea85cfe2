/** The timetable as it grows, and the two readers of it, each with its own clock and its own cursors. */
module DpEngine {
  import opened Arithmetic
  import opened DpSchedule

  /** The spans of the whole run, as far as the ring still has them. */
  ghost predicate Mirrors(ring: seq<Slot>, all: seq<Slot>)
    requires |ring| == RING
  {
    forall k: nat | Low(|all|) <= k < |all| :: ring[k % RING] == all[k]
  }

  /** The engine is one: it ends no span before an earlier one. */
  ghost predicate InOrder(all: seq<Slot>) {
    forall i, j | 0 <= i < j < |all| :: all[i].end <= all[j].end
  }

  /** The guest sees span k at its instant: it and all before it have been launched. */
  ghost predicate IsSeen(all: seq<Slot>, k: nat, now: nat)
    requires k < |all|
  {
    forall i | 0 <= i <= k :: all[i].kick <= now
  }

  /** The spans it sees that have not ended. */
  ghost function OpenSpans(all: seq<Slot>, now: nat): set<nat> {
    set k: nat | k < |all| && IsSeen(all, k, now) && all[k].end > now
  }

  /** What DPC_CURRENT is: with no span to be seen the register; with all that are seen ended, the end of the last of
      them, if the ring still holds that, and the end of the newest if it does not; and otherwise inside the first that
      has not ended. */
  ghost predicate Reads(all: seq<Slot>, now: nat, reg: nat, a: nat) {
    && (all == [] || all[0].kick > now ==> a == reg)
    && forall k: nat | k < |all| && IsSeen(all, k, now) :: ReadsAt(all, now, a, k)
  }

  ghost predicate ReadsAt(all: seq<Slot>, now: nat, a: nat, k: nat)
    requires k < |all|
  {
    && (all[k].end <= now && (k + 1 < |all| ==> all[k + 1].kick > now) ==>
          a == all[if k >= Low(|all|) then k else |all| - 1].a1)
    && (all[k].end > now && (k > 0 ==> all[k - 1].end <= now) ==> Points(all[k], now, a))
  }

  /** From the two counts to what is read. */
  lemma ReadsIs(all: seq<Slot>, done: nat, seen: nat, now: nat, reg: nat, a: nat)
    requires Low(|all|) <= done <= |all| && Low(|all|) <= seen <= |all|
    requires forall k: nat | k < |all| :: (IsSeen(all, k, now) <==> k < seen) && (all[k].end <= now <==> k < done)
    requires done < seen ==> a == Inside(all[done], now)
    requires done >= seen && seen > Low(|all|) ==> a == all[seen - 1].a1
    requires done >= seen && seen == Low(|all|) ==> a == if seen > 0 then all[|all| - 1].a1 else reg
    ensures Reads(all, now, reg, a)
  {
    hide IsSeen, Inside, Points;
    if done < seen { InsideIs(all[done], now); }
    NoneSeen(all, now);
    forall k: nat | k < |all| && IsSeen(all, k, now) ensures ReadsAt(all, now, a, k) {
      if k + 1 < |all| && all[k + 1].kick > now { NextSeen(all, k, now); }
    }
  }

  lemma NoneSeen(all: seq<Slot>, now: nat)
    ensures all != [] && all[0].kick > now ==> !IsSeen(all, 0, now)
  {
  }

  lemma NextSeen(all: seq<Slot>, k: nat, now: nat)
    requires k + 1 < |all| && all[k + 1].kick > now
    ensures !IsSeen(all, k + 1, now)
  {
  }

  lemma {:induction false} RangeSize(s: set<nat>, a: nat, b: nat)
    requires forall k: nat :: k in s <==> a <= k < b
    ensures |s| == if a < b then b - a else 0
    decreases b
  {
    if a < b { RangeSize(s - {b - 1}, a, b - 1); } else { assert s == {}; }
  }

  lemma {:induction false} SubsetSize(s: set<nat>, t: set<nat>)
    requires s <= t
    ensures |s| <= |t|
  {
    if x: nat :| x in s { SubsetSize(s - {x}, t - {x}); }
  }

  lemma MirrorsPushed(ring: seq<Slot>, all: seq<Slot>, s: Slot)
    requires |ring| == RING && Mirrors(ring, all)
    ensures Mirrors(ring[|all| % RING := s], all + [s])
  {
    var now, more := ring[|all| % RING := s], all + [s];
    forall k: nat | Low(|more|) <= k < |more| ensures now[k % RING] == more[k] {
      if k < |all| { OwnSlots(k, |all|, RING); }
    }
  }

  class Engine {
    const ring: array<Slot>
    var subSeq: nat
    var schedEnd: nat
    var visCur: seq<nat>        // by reader: 0 the CPU, 1 the signal processor
    var compCur: seq<nat>
    ghost var all: seq<Slot>
    ghost var asked: seq<nat>   // the last instant each reader asked about

    ghost predicate Sound(who: nat)
      requires ring.Length == RING
      reads this, ring
    {
      && who < |visCur| == |compCur| == |asked|
      && visCur[who] <= subSeq && compCur[who] <= subSeq
      && Cursor(ring[..], false, subSeq, asked[who], visCur[who])
      && Cursor(ring[..], true, subSeq, asked[who], compCur[who])
    }

    ghost predicate Valid()
      reads this, ring
    {
      && ring.Length == RING && |all| == subSeq && Mirrors(ring[..], all) && InOrder(all)
      && schedEnd == (if all == [] then 0 else all[|all| - 1].end)
      && |visCur| == 2 && Sound(0) && Sound(1)
    }

    constructor ()
      ensures Valid() && all == [] && asked == [0, 0] && fresh(ring)
    {
      ring := new Slot[RING](_ => Slot(0, 0, 0, 0, 0));
      subSeq, schedEnd, visCur, compCur := 0, 0, [0, 0], [0, 0];
      all, asked := [], [0, 0];
    }

    /** A slot at the end of the timetable; what the readers have already seen stays as it was. */
    method Push(s: Slot)
      requires Valid() && s.end >= schedEnd
      modifies this`subSeq, this`schedEnd, this`all, ring
      ensures Valid() && all == old(all) + [s]
    {
      hide Cursor, Mirrors;
      MirrorsPushed(ring[..], all, s);
      ghost var was := ring[..];
      StaysSound(0, s);
      StaysSound(1, s);
      ring[subSeq % RING] := s;
      assert ring[..] == was[subSeq % RING := s];
      all := all + [s];
      subSeq, schedEnd := subSeq + 1, s.end;
    }

    lemma StaysSound(who: nat, s: Slot)
      requires ring.Length == RING && Sound(who)
      ensures Cursor(ring[..][subSeq % RING := s], false, subSeq + 1, asked[who], visCur[who])
      ensures Cursor(ring[..][subSeq % RING := s], true, subSeq + 1, asked[who], compCur[who])
    {
      hide Cursor;
      CursorPushed(ring[..], false, subSeq, asked[who], visCur[who], s);
      CursorPushed(ring[..], true, subSeq, asked[who], compCur[who], s);
    }

    /** dpScheduleSpan: a span launched at `kick` starts when the engine is free and takes its cost. The CPU's own
        launches can be seen one operation later than those of the signal processor. */
    method ScheduleSpan(current: nat, end: nat, cost: nat, kick: nat, sealed: bool)
      requires Valid()
      modifies this`subSeq, this`schedEnd, this`all, ring
      ensures Valid() && |all| == |old(all)| + 1 && all[..|old(all)|] == old(all)
      ensures var s := all[|old(all)|];
              && s.start >= kick && s.start >= old(schedEnd) && (s.start == kick || s.start == old(schedEnd))
              && s.end == s.start + cost == schedEnd && s.a0 == current && s.a1 == end
              && s.kick == kick + if sealed then 0 else 1
    {
      hide Sound, Mirrors, InOrder;
      var t0 := schedEnd;
      if kick > t0 { t0 := kick; }
      Push(Slot(if sealed then kick else kick + 1, t0, t0 + cost, current, end));
    }

    /** dpScheduleReload: the read pointer jumps, with the engine frozen: an empty span that costs nothing. */
    method ScheduleReload(addr: nat, kick: nat, sealed: bool)
      requires Valid()
      modifies this`subSeq, this`schedEnd, this`all, ring
      ensures Valid() && |all| == |old(all)| + 1 && all[..|old(all)|] == old(all)
      ensures var s := all[|old(all)|];
              s.a0 == s.a1 == addr && s.start == s.end == schedEnd >= old(schedEnd) && s.end >= s.kick >= kick
    {
      hide Sound, Mirrors, InOrder;
      var kg := if sealed then kick else kick + 1;
      var t := schedEnd;
      if kg > t { t := kg; }
      Push(Slot(kg, t, t, addr, addr));
    }

    /** The two counts of a reader at its instant, from its cursors: the same as from scratch. */
    method Count(now: nat, who: nat) returns (done: nat, seen: nat)
      requires Valid() && who < 2 && asked[who] <= now
      modifies this`visCur, this`compCur, this`asked
      ensures Valid() && asked == old(asked)[who := now]
      ensures done == CountAt(ring[..], true, subSeq, now) && seen == CountAt(ring[..], false, subSeq, now)
    {
      hide CountAt, Scan, Mirrors, InOrder;
      CursorUntil(now, who);
      done := ScanFwd(ring, true, subSeq, now, compCur[who]);
      seen := ScanFwd(ring, false, subSeq, now, visCur[who]);
      CursorIsSound(ring[..], true, subSeq, now, compCur[who]);
      CursorIsSound(ring[..], false, subSeq, now, visCur[who]);
      CursorLater(ring[..], true, subSeq, now, now);
      CursorLater(ring[..], false, subSeq, now, now);
      compCur, visCur := compCur[who := done], visCur[who := seen];
      asked := asked[who := now];
    }

    lemma CursorUntil(now: nat, who: nat)
      requires ring.Length == RING && Sound(who) && asked[who] <= now
      ensures Cursor(ring[..], true, subSeq, now, compCur[who]) && Cursor(ring[..], false, subSeq, now, visCur[who])
    {
      hide Stamp, Trim;
    }

    /** dpcCurrentFor. */
    method CurrentFor(now: nat, who: nat, reg: nat) returns (a: nat)
      requires Valid() && who < 2 && asked[who] <= now
      modifies this`visCur, this`compCur, this`asked
      ensures Valid() && a == CurrentAt(ring[..], subSeq, reg, now) && (Held(now) ==> Reads(all, now, reg, a))
    {
      hide Reads, Held, LostSeen, LostOver, CountAt, Sound, Mirrors, InOrder, Share, Words;
      var c, sub := Count(now, who);
      if Held(now) { CurrentIs(now, reg); }
      if c > sub { c := sub; }
      if sub > c {
        var s := ring[c % RING];
        if s.a1 <= s.a0 || now <= s.start { return s.a0; }
        if s.end <= s.start || now >= s.end { return s.a1; }
        return s.a0 + Words(Share(s.a1 - s.a0, now - s.start, s.end - s.start));
      }
      if c > 0 { return ring[(c - 1) % RING].a1; }
      return reg;
    }

    /** The busy bits of dpcStatusFor. */
    method StatusFor(now: nat, who: nat) returns (busy: bool, endValid: bool)
      requires Valid() && who < 2 && asked[who] <= now
      modifies this`visCur, this`compCur, this`asked
      ensures Valid() && busy == (OpenAt(ring[..], subSeq, now) >= 1) && endValid == (OpenAt(ring[..], subSeq, now) >= 2)
      ensures Held(now) ==> busy == (|OpenSpans(all, now)| >= 1) && endValid == (|OpenSpans(all, now)| >= 2)
    {
      hide LostSeen, LostOver, OpenSpans, CountAt, Sound, Mirrors, InOrder;
      var c, vis := Count(now, who);
      if Held(now) { OpenIs(now); }
      var out := if vis > c then vis - c else 0;
      busy, endValid := out >= 1, out >= 2;
    }

    /** dpNextChangeAt. */
    method NextChangeAt(now: nat, cur: bool, who: nat) returns (e: nat)
      requires Valid() && who < 2 && asked[who] <= now
      modifies this`visCur, this`compCur, this`asked
      ensures Valid() && e == NextChange(ring[..], subSeq, now, cur)
    {
      hide CountAt, Sound, Mirrors, InOrder, Share, Words, Reached;
      var c, vis := Count(now, who);
      e := 0;
      if c < subSeq { e := ring[c % RING].end; }
      if vis < subSeq {
        var k := ring[vis % RING].kick;
        if e == 0 || k < e { e := k; }
      }
      if cur && c < vis {
        var t := NextStep(ring[c % RING], now);
        if t > now && (e == 0 || t < e) { e := t; }
      }
      e := if e > now then e else 0;
    }

    /** Whatever the ring no longer holds is seen, and has ended. */
    ghost predicate Held(now: nat)
      reads `all
    {
      LostSeen(now) && LostOver(now)
    }

    ghost predicate LostSeen(now: nat)
      reads `all
    {
      forall i | 0 <= i < Low(|all|) :: all[i].kick <= now
    }

    ghost predicate LostOver(now: nat)
      reads `all
    {
      forall i | 0 <= i < Low(|all|) :: all[i].end <= now
    }

    lemma SeenAre(now: nat, k: nat)
      requires Valid() && LostSeen(now) && k < |all|
      ensures k < CountAt(ring[..], false, subSeq, now) <==> IsSeen(all, k, now)
    {
      hide CountAt, Sound;
      var r := CountAt(ring[..], false, subSeq, now);
      if r < |all| { assert Stamp(ring[..], false, r) == all[r].kick > now; }
      forall i | 0 <= i < r ensures all[i].kick <= now {
        if i >= Low(|all|) { assert Stamp(ring[..], false, i) == all[i].kick; }
      }
    }

    /** The busy bits count the spans that are seen and have not ended, if and only if the ring has lost none of these. */
    lemma OpenIs(now: nat)
      requires Valid() && LostSeen(now)
      ensures OpenAt(ring[..], subSeq, now) == |OpenSpans(all, now)| <==> LostOver(now)
    {
      var done, seen := CountAt(ring[..], true, subSeq, now), CountAt(ring[..], false, subSeq, now);
      hide CountAt, Sound, Mirrors, InOrder;
      forall k: nat | k < |all| ensures IsSeen(all, k, now) <==> k < seen { SeenAre(now, k); }
      if LostOver(now) {
        forall k: nat | k < |all| ensures k in OpenSpans(all, now) <==> done <= k < seen { CompletedAreEnded(now, k); }
        RangeSize(OpenSpans(all, now), done, seen);
      } else {
        var i :| 0 <= i < Low(|all|) && all[i].end > now;
        LostIsOpen(now, i, done, seen);
      }
    }

    /** A lost span that is open is not counted, and neither are those between it and the ring. */
    lemma LostIsOpen(now: nat, i: nat, done: nat, seen: nat)
      requires Valid() && i < Low(|all|) && all[i].end > now && Low(|all|) <= done && Low(|all|) <= seen <= |all|
      requires forall k: nat | k < |all| :: IsSeen(all, k, now) <==> k < seen
      ensures |OpenSpans(all, now)| > if seen > done then seen - done else 0
    {
      var open := OpenSpans(all, now);
      var counted := set k | k in open && done <= k;
      hide IsSeen;
      forall k: nat | done <= k < seen ensures k in open { assert all[i].end <= all[k].end; }
      assert IsSeen(all, i, now);
      RangeSize(counted, done, seen);
      SubsetSize(counted, open - {i});
    }

    lemma CurrentIs(now: nat, reg: nat)
      requires Valid() && Held(now)
      ensures Reads(all, now, reg, CurrentAt(ring[..], subSeq, reg, now))
    {
      var done, seen := CountAt(ring[..], true, subSeq, now), CountAt(ring[..], false, subSeq, now);
      Answers(now, reg, done, seen);
      hide CountAt, Sound, InOrder, Inside, Mirrors, CurrentAt;
      forall k: nat | k < |all| ensures (IsSeen(all, k, now) <==> k < seen) && (all[k].end <= now <==> k < done) {
        SeenAre(now, k);
        CompletedAreEnded(now, k);
      }
      ReadsIs(all, done, seen, now, reg, CurrentAt(ring[..], subSeq, reg, now));
    }

    /** The answer, in terms of the spans of the whole run. */
    lemma Answers(now: nat, reg: nat, done: nat, seen: nat)
      requires Valid() && done == CountAt(ring[..], true, subSeq, now) && seen == CountAt(ring[..], false, subSeq, now)
      ensures var a := CurrentAt(ring[..], subSeq, reg, now);
              && (done < seen ==> a == Inside(all[done], now))
              && (done >= seen && seen > Low(|all|) ==> a == all[seen - 1].a1)
              && (done >= seen && seen == Low(|all|) ==> a == if seen > 0 then all[|all| - 1].a1 else reg)
    {
      hide CountAt, Sound, InOrder, Inside;
      var c := if done > seen then seen else done;
      if c < subSeq { assert ring[..][c % RING] == all[c]; }
      if c > Low(subSeq) { assert ring[..][(c - 1) % RING] == all[c - 1]; }
      if subSeq > RING { OneRoundOn(subSeq); }
    }

    lemma OneRoundOn(sub: nat)
      requires Valid() && sub == subSeq >= RING
      ensures sub > RING ==> ring[..][(sub - RING - 1) % RING] == all[sub - 1]
      ensures ring[..][(sub - 1) % RING] == all[sub - 1]
    {
      if sub > RING { assert (sub - RING - 1) % RING == (sub - 1) % RING; }
    }

    /** dpCompletedAt counts the spans that have ended, as long as the ring still holds every one that has not. */
    lemma CompletedAreEnded(now: nat, k: nat)
      requires Valid() && k < |all|
      requires forall i | 0 <= i < Low(|all|) :: all[i].end <= now
      ensures k < CountAt(ring[..], true, subSeq, now) <==> all[k].end <= now
    {
      hide CountAt, Sound;
      var r := CountAt(ring[..], true, subSeq, now);
      if r < |all| { assert Stamp(ring[..], true, r) == all[r].end > now; }
      if Low(|all|) <= k < r { assert Stamp(ring[..], true, k) == all[k].end; }
    }
  }

  /** A span that ends at address 8, and then 256 to address 16 for instants still to come: at 500 the guest sees only the
      first, which has ended, but the ring no longer holds it, and it reads 16. */
  method LappedRing() returns (e: Engine, a: nat)
    ensures fresh(e) && e.Valid() && |e.all| == 257
    ensures e.all[0].a1 == 8 && IsSeen(e.all, 0, 500) && e.all[0].end <= 500 && e.all[1].kick == 1000 && a == 16
  {
    hide Engine.Valid, Reads, CurrentAt;
    e := new Engine();
    e.ScheduleSpan(0, 8, 0, 0, true);
    for i := 0 to 256
      invariant e.Valid() && fresh(e) && fresh(e.ring) && |e.all| == i + 1 && e.asked == [0, 0]
      invariant e.all[0] == Slot(0, 0, 0, 0, 8) && forall k | 1 <= k <= i :: e.all[k].kick == 1000 && e.all[k].a1 == 16
    {
      e.ScheduleSpan(8, 16, 0, 1000, true);
    }
    a := e.CurrentFor(500, 0, 0);
    LappedReads(e.all, a);
  }

  lemma LappedReads(all: seq<Slot>, a: nat)
    requires |all| == 257 && Reads(all, 500, 0, a) && all[0] == Slot(0, 0, 0, 0, 8)
    requires forall k | 1 <= k <= 256 :: all[k].kick == 1000 && all[k].a1 == 16
    ensures IsSeen(all, 0, 500) && a == 16
  {
    assert ReadsAt(all, 500, a, 0) by { assert IsSeen(all, 0, 500); }
  }
}
