/** The display processor's timetable: every span of commands is dated when it is launched, and what the guest reads
    of the engine is a function of those dates and of its own clock. */
module DpSchedule {
  import opened Arithmetic

  const RING := 256

  /** A span: when it can be seen, when the engine starts and ends it, and the addresses it covers. */
  datatype Slot = Slot(kick: nat, start: nat, end: nat, a0: nat, a1: nat)

  // ---- counting spans by their stamps ----

  /** The oldest span that the ring still holds. */
  function Low(sub: nat): (l: nat)
    ensures l <= sub <= l + RING
  {
    if sub < RING then 0 else sub - RING
  }

  function Stamp(ring: seq<Slot>, closing: bool, k: nat): nat
    requires |ring| == RING
  {
    if closing then ring[k % RING].end else ring[k % RING].kick
  }

  /** The first span from `from` on whose stamp has not come. */
  function Scan(ring: seq<Slot>, closing: bool, sub: nat, now: nat, from: nat): (r: nat)
    requires |ring| == RING && from <= sub
    ensures from <= r <= sub && (r < sub ==> Stamp(ring, closing, r) > now)
    ensures forall k | from <= k < r :: Stamp(ring, closing, k) <= now
    decreases sub - from
  {
    if from < sub && Stamp(ring, closing, from) <= now then Scan(ring, closing, sub, now, from + 1) else from
  }

  /** How many spans the guest sees launched (or closed) at its instant: a scan of the whole ring. */
  function CountAt(ring: seq<Slot>, closing: bool, sub: nat, now: nat): (r: nat)
    requires |ring| == RING
    ensures Low(sub) <= r <= sub && (r < sub ==> Stamp(ring, closing, r) > now)
    ensures forall k | Low(sub) <= k < r :: Stamp(ring, closing, k) <= now
  {
    Scan(ring, closing, sub, now, Low(sub))
  }

  /** The one number with these properties. */
  lemma CountIs(ring: seq<Slot>, closing: bool, sub: nat, now: nat, r: nat)
    requires |ring| == RING && Low(sub) <= r <= sub && (r < sub ==> Stamp(ring, closing, r) > now)
    requires forall k | Low(sub) <= k < r :: Stamp(ring, closing, k) <= now
    ensures CountAt(ring, closing, sub, now) == r
  {
    hide CountAt, Stamp;
  }

  /** Where a scan that goes on from a cursor starts: past what the ring no longer holds, and at the beginning when
      the count has been reset under it. */
  function Trim(sub: nat, cur: nat): (c: nat)
    ensures Low(sub) <= c <= sub
  {
    if sub < RING then (if cur > sub then 0 else cur)
    else if cur < sub - RING then sub - RING
    else if cur > sub then sub
    else cur
  }

  /** Nothing that a scan from the cursor skips is still to come. */
  ghost predicate Cursor(ring: seq<Slot>, closing: bool, sub: nat, now: nat, cur: nat)
    requires |ring| == RING
  {
    forall k | Low(sub) <= k < Trim(sub, cur) :: Stamp(ring, closing, k) <= now
  }

  /** Going on from the cursor gives what a scan of the whole ring gives, exactly when it skips nothing. */
  lemma CursorIsSound(ring: seq<Slot>, closing: bool, sub: nat, now: nat, cur: nat)
    requires |ring| == RING
    ensures Scan(ring, closing, sub, now, Trim(sub, cur)) == CountAt(ring, closing, sub, now) <==>
            Cursor(ring, closing, sub, now, cur)
  {
    hide CountAt, Stamp, Trim, Scan;
    var r := Scan(ring, closing, sub, now, Trim(sub, cur));
    if Cursor(ring, closing, sub, now, cur) { CountIs(ring, closing, sub, now, r); }
  }

  /** The answer to one question is a good cursor for every later one of the same reader: its clock does not go back,
      and launches only add spans. */
  lemma CursorLater(ring: seq<Slot>, closing: bool, sub: nat, now: nat, later: nat)
    requires |ring| == RING && now <= later
    ensures Cursor(ring, closing, sub, later, CountAt(ring, closing, sub, now))
  {
    hide Stamp, CountAt;
  }

  lemma CursorPushed(ring: seq<Slot>, closing: bool, sub: nat, now: nat, cur: nat, s: Slot)
    requires |ring| == RING && cur <= sub && Cursor(ring, closing, sub, now, cur)
    ensures Cursor(ring[sub % RING := s], closing, sub + 1, now, cur)
  {
    var pushed := ring[sub % RING := s];
    forall k | Low(sub + 1) <= k < Trim(sub + 1, cur) ensures Stamp(pushed, closing, k) <= now {
      OwnSlots(k, sub, RING);
      assert Stamp(ring, closing, k) <= now;
    }
  }

  /** A cursor that outlives a reset of the count is not: with one span launched since, still to end at 10, a cursor
      left at 1 takes it for ended at 5. */
  lemma StaleCursor(ring: seq<Slot>)
    requires |ring| == RING && ring[0].end == 10
    ensures CountAt(ring, true, 1, 5) == 0 && Scan(ring, true, 1, 5, Trim(1, 1)) == 1
  {
    CountIs(ring, true, 1, 5, 0);
  }

  /** dpScanFwd: go on from the cursor, after cutting off what the ring no longer holds. */
  method ScanFwd(ring: array<Slot>, closing: bool, sub: nat, now: nat, from: nat) returns (cur: nat)
    requires ring.Length == RING
    ensures cur == Scan(ring[..], closing, sub, now, Trim(sub, from))
  {
    cur := from;
    if sub < RING {
      if cur > sub { cur := 0; }
    } else if cur < sub - RING {
      cur := sub - RING;
    }
    if cur > sub { cur := sub; }
    assert cur == Trim(sub, from);
    hide Trim, Scan, Stamp;
    while cur < sub && Stamp(ring[..], closing, cur) <= now
      invariant cur <= sub
      invariant Scan(ring[..], closing, sub, now, cur) == Scan(ring[..], closing, sub, now, Trim(sub, from))
    {
      ScanStep(ring[..], closing, sub, now, cur);
      cur := cur + 1;
    }
    if cur < sub { ScanStep(ring[..], closing, sub, now, cur); }
  }

  lemma ScanStep(ring: seq<Slot>, closing: bool, sub: nat, now: nat, k: nat)
    requires |ring| == RING && k < sub
    ensures Scan(ring, closing, sub, now, k) ==
            if Stamp(ring, closing, k) <= now then Scan(ring, closing, sub, now, k + 1) else k
  {
  }

  // ---- what the guest reads ----

  /** How much of `span` falls to the first x of `dur`. */
  function Share(span: nat, x: nat, dur: nat): nat
    requires dur > 0
  {
    span * x / dur
  }

  /** When n of `span` have fallen. */
  function Reached(n: nat, dur: nat, span: nat): nat
    requires span > 0
  {
    (n * dur + span - 1) / span
  }

  /** Whole 8-byte words. */
  function Words(n: nat): (w: nat)
    ensures w <= n < w + 8 && w % 8 == 0
  {
    n / 8 * 8
  }

  /** The read pointer inside an open span, shared out evenly over its time in whole 8-byte words. */
  function Inside(s: Slot, now: nat): nat {
    if s.a1 <= s.a0 || now <= s.start then s.a0
    else if s.end <= s.start || now >= s.end then s.a1
    else s.a0 + Words(Share(s.a1 - s.a0, now - s.start, s.end - s.start))
  }

  /** Where the read pointer of a span that has not ended is: at its start until the engine starts it, and then at the last
      whole 8-byte word whose share of the time has gone. */
  ghost predicate Points(s: Slot, now: nat, a: nat) {
    if s.a1 <= s.a0 || now <= s.start then a == s.a0
    else
      && s.a0 <= a < s.a1 && (a - s.a0) % 8 == 0
      && (a - s.a0) * (s.end - s.start) <= (s.a1 - s.a0) * (now - s.start) < (a - s.a0 + 8) * (s.end - s.start)
  }

  lemma InsideIs(s: Slot, now: nat)
    requires now < s.end
    ensures Points(s, now, Inside(s, now))
  {
    if s.a1 > s.a0 && now > s.start {
      var span, x, dur := s.a1 - s.a0, now - s.start, s.end - s.start;
      var n := Share(span, x, dur);
      var w := Words(n);
      ShareBelow(span, x, dur);
      Euclid(span * x, dur);
      Grows(dur, w, n);
      Grows(dur, n + 1, w + 8);
      Distribute(dur, n, 1);
      hide Share, Words;
      assert Inside(s, now) - s.a0 == w;
    }
  }

  /** DPC_CURRENT at an instant; `reg` is the register behind it, for when no span has ever been launched. */
  function CurrentAt(ring: seq<Slot>, sub: nat, reg: nat, now: nat): nat
    requires |ring| == RING
  {
    var done, seen := CountAt(ring, true, sub, now), CountAt(ring, false, sub, now);
    var c := if done > seen then seen else done;
    if seen > c then Inside(ring[c % RING], now)
    else if c > 0 then ring[(c - 1) % RING].a1
    else reg
  }

  /** How many spans are launched and not closed: DMA_BUSY and CMD_BUSY from one on, END_VALID from two. */
  function OpenAt(ring: seq<Slot>, sub: nat, now: nat): nat
    requires |ring| == RING
  {
    var done, seen := CountAt(ring, true, sub, now), CountAt(ring, false, sub, now);
    if seen > done then seen - done else 0
  }

  /** The instant at which an open span's pointer next moves, or 0 if it stays until the span ends. */
  function NextStep(s: Slot, now: nat): (t: nat)
    ensures t == 0 || t > now
  {
    if s.a1 > s.a0 && s.end > s.start && now < s.end then
      var span, dur := s.a1 - s.a0, s.end - s.start;
      var adv := if now > s.start then Words(Share(span, now - s.start, dur)) else 0;
      var next := adv + 8;
      if next < span then
        var t := s.start + Reached(next, dur, span);
        if t > now then t else 0
      else 0
    else 0
  }

  function Sooner(e: nat, k: nat): nat { if e == 0 || (k != 0 && k < e) then k else e }

  /** The first instant after `now` at which the timetable can change what is read, or 0. */
  function NextChange(ring: seq<Slot>, sub: nat, now: nat, cur: bool): nat
    requires |ring| == RING
  {
    var done, seen := CountAt(ring, true, sub, now), CountAt(ring, false, sub, now);
    var e := if done < sub then ring[done % RING].end else 0;
    var f := if seen < sub then Sooner(e, ring[seen % RING].kick) else e;
    var g := if cur && done < seen then Sooner(f, NextStep(ring[done % RING], now)) else f;
    if g > now then g else 0
  }

  // ---- nothing changes before the next change ----

  lemma CountsHold(ring: seq<Slot>, sub: nat, now: nat, cur: bool, t: nat)
    requires |ring| == RING && now <= t
    requires var e := NextChange(ring, sub, now, cur); e == 0 || t < e
    ensures CountAt(ring, true, sub, t) == CountAt(ring, true, sub, now)
    ensures CountAt(ring, false, sub, t) == CountAt(ring, false, sub, now)
  {
    hide CountAt, NextStep;
    var done, seen := CountAt(ring, true, sub, now), CountAt(ring, false, sub, now);
    assert done < sub ==> Stamp(ring, true, done) > t;
    assert seen < sub ==> Stamp(ring, false, seen) > t;
    hide Stamp;
    CountIs(ring, true, sub, t, done);
    CountIs(ring, false, sub, t, seen);
  }

  lemma FallenByThen(n: nat, y: nat, span: nat, dur: nat)
    requires span > 0 && dur > 0 && n <= Share(span, y, dur)
    ensures Reached(n, dur, span) <= y
  {
    var q, t := span * y / dur, (n * dur + span - 1) / span;
    Euclid(span * y, dur);
    Euclid(n * dur + span - 1, span);
    Grows(dur, n, q);
    assert span * (y + 1) == span * y + span;
    if y < t { Grows(span, y + 1, t); }
  }

  lemma ThenHaveFallen(n: nat, y: nat, span: nat, dur: nat)
    requires span > 0 && dur > 0 && Reached(n, dur, span) <= y
    ensures n <= Share(span, y, dur)
  {
    var q, t := span * y / dur, (n * dur + span - 1) / span;
    Euclid(span * y, dur);
    Euclid(n * dur + span - 1, span);
    Grows(span, t, y);
    assert dur * (q + 1) == dur * q + dur;
    if q < n { Grows(dur, q + 1, n); }
  }

  /** The two are adjoint: n have fallen by y exactly if y is no earlier than when they do. */
  lemma SharesReach(n: nat, y: nat, span: nat, dur: nat)
    requires span > 0 && dur > 0
    ensures n <= Share(span, y, dur) <==> Reached(n, dur, span) <= y
  {
    hide Share, Reached;
    if n <= Share(span, y, dur) { FallenByThen(n, y, span, dur); }
    if Reached(n, dur, span) <= y { ThenHaveFallen(n, y, span, dur); }
  }

  lemma ShareGrows(span: nat, x: nat, y: nat, dur: nat)
    requires dur > 0 && x <= y
    ensures Share(span, x, dur) <= Share(span, y, dur)
  {
    if span > 0 {
      hide Share, Reached;
      SharesReach(Share(span, x, dur), x, span, dur);
      SharesReach(Share(span, x, dur), y, span, dur);
    } else {
      assert span * x == 0;
    }
  }

  lemma ShareBelow(span: nat, y: nat, dur: nat)
    requires span > 0 && y < dur
    ensures Share(span, y, dur) < span
  {
    Euclid(span * y, dur);
    Grows(span, y + 1, dur);
    assert span * (y + 1) == span * y + span;
    if span * y / dur >= span { Grows(dur, span, span * y / dur); }
  }

  lemma NothingYet(span: nat, dur: nat)
    requires dur > 0
    ensures Share(span, 0, dur) == 0
  {
    assert span * 0 == 0;
  }

  lemma SameWords(a: nat, b: nat)
    requires Words(a) <= b < Words(a) + 8
    ensures Words(a) == Words(b)
  {
  }

  /** Before its next step the pointer stays where it is. */
  lemma PointerHolds(s: Slot, now: nat, t: nat)
    requires now <= t < s.end && (NextStep(s, now) == 0 || t < NextStep(s, now))
    ensures Inside(s, t) == Inside(s, now)
  {
    hide Share, Reached, Words;
    if s.a1 > s.a0 && s.start < t {
      var span, dur := s.a1 - s.a0, s.end - s.start;
      var x := if now > s.start then now - s.start else 0;
      var y := t - s.start;
      NothingYet(span, dur);
      assert Words(0) == 0;
      var p := Share(span, x, dur);
      var next := Words(p) + 8;
      ShareGrows(span, x, y, dur);
      ShareBelow(span, y, dur);
      SharesReach(next, x, span, dur);
      SharesReach(next, y, span, dur);
      SameWords(p, Share(span, y, dur));
    }
  }

  /** Nothing that the guest can read of the engine changes before the next change, and nothing ever does when there
      is none: neither DPC_CURRENT nor the busy bits. */
  lemma NothingChanges(ring: seq<Slot>, sub: nat, reg: nat, now: nat, t: nat)
    requires |ring| == RING && now <= t
    requires var e := NextChange(ring, sub, now, true); e == 0 || t < e
    ensures CurrentAt(ring, sub, reg, t) == CurrentAt(ring, sub, reg, now)
    ensures OpenAt(ring, sub, t) == OpenAt(ring, sub, now)
  {
    hide CountAt, Inside, NextStep;
    CountsHold(ring, sub, now, true, t);
    var done, seen := CountAt(ring, true, sub, now), CountAt(ring, false, sub, now);
    if done < seen {
      assert Stamp(ring, true, done) == ring[done % RING].end;
      PointerHolds(ring[done % RING], now, t);
    }
  }

  /** There is none exactly when every span has been seen and has ended. */
  lemma ChangeIsLater(ring: seq<Slot>, sub: nat, now: nat, cur: bool)
    requires |ring| == RING
    ensures NextChange(ring, sub, now, cur) == 0 <==>
            CountAt(ring, true, sub, now) == sub && CountAt(ring, false, sub, now) == sub
  {
    hide CountAt;
    var done, seen := CountAt(ring, true, sub, now), CountAt(ring, false, sub, now);
    assert done < sub ==> ring[done % RING].end == Stamp(ring, true, done);
    assert seen < sub ==> ring[seen % RING].kick == Stamp(ring, false, seen);
  }

  lemma CountMoves(ring: seq<Slot>, closing: bool, sub: nat, now: nat, t: nat)
    requires |ring| == RING && now <= t
    requires var c := CountAt(ring, closing, sub, now); c < sub && Stamp(ring, closing, c) <= t
    ensures CountAt(ring, closing, sub, t) > CountAt(ring, closing, sub, now)
  {
    hide CountAt, Stamp;
  }

  /** The instant at which an open span's pointer is due to move, and it does. */
  lemma PointerMoves(s: Slot, now: nat)
    requires 0 < NextStep(s, now) < s.end
    ensures Inside(s, NextStep(s, now)) > Inside(s, now)
  {
    hide Share, Reached, Words;
    var span, dur, t := s.a1 - s.a0, s.end - s.start, NextStep(s, now);
    var p := if now > s.start then Share(span, now - s.start, dur) else 0;
    assert Words(0) == 0;
    var next := Words(p) + 8;
    assert t == s.start + Reached(next, dur, span);
    SharesReach(next, t - s.start, span, dur);
    NothingYet(span, dur);
    WordsPass(p, Share(span, t - s.start, dur));
  }

  lemma WordsPass(a: nat, b: nat)
    requires Words(a) + 8 <= b
    ensures Words(b) > Words(a)
  {
  }

  /** The next change is one: at that instant a span is seen or ends, or the pointer of the open one moves. */
  lemma ChangeIsOne(ring: seq<Slot>, sub: nat, now: nat)
    requires |ring| == RING && NextChange(ring, sub, now, true) != 0
    ensures var e := NextChange(ring, sub, now, true);
            var done, seen := CountAt(ring, true, sub, now), CountAt(ring, false, sub, now);
            || CountAt(ring, true, sub, e) > done
            || CountAt(ring, false, sub, e) > seen
            || (done < seen && Inside(ring[done % RING], e) > Inside(ring[done % RING], now))
  {
    hide CountAt, Inside, NextStep;
    var e := NextChange(ring, sub, now, true);
    var done, seen := CountAt(ring, true, sub, now), CountAt(ring, false, sub, now);
    assert done < sub ==> ring[done % RING].end == Stamp(ring, true, done);
    assert seen < sub ==> ring[seen % RING].kick == Stamp(ring, false, seen);
    if done < sub && ring[done % RING].end <= e {
      CountMoves(ring, true, sub, now, e);
    } else if seen < sub && ring[seen % RING].kick <= e {
      CountMoves(ring, false, sub, now, e);
    } else {
      PointerMoves(ring[done % RING], now);
    }
  }

  /** For one who asks for the busy bits only, it is the first instant at which a span is seen or ends: until then neither
      happens, and then one does. */
  lemma StatusChanges(ring: seq<Slot>, sub: nat, now: nat, t: nat)
    requires |ring| == RING && now <= t
    ensures var e := NextChange(ring, sub, now, false);
            e != 0 && t >= e <==>
            CountAt(ring, true, sub, t) > CountAt(ring, true, sub, now) || CountAt(ring, false, sub, t) > CountAt(ring, false, sub, now)
  {
    hide CountAt;
    var e := NextChange(ring, sub, now, false);
    var done, seen := CountAt(ring, true, sub, now), CountAt(ring, false, sub, now);
    if e == 0 || t < e {
      CountsHold(ring, sub, now, false, t);
    } else {
      assert done < sub ==> ring[done % RING].end == Stamp(ring, true, done);
      assert seen < sub ==> ring[seen % RING].kick == Stamp(ring, false, seen);
      if done < sub && ring[done % RING].end <= t { CountMoves(ring, true, sub, now, t); } else { CountMoves(ring, false, sub, now, t); }
    }
  }

  /** Inside an open span the pointer goes up, in steps of whole words from the span's start, and stays below its
      end. */
  lemma PointerAdvances(s: Slot, now: nat, t: nat)
    requires s.start <= now <= t < s.end && s.a0 <= s.a1
    ensures s.a0 <= Inside(s, now) <= Inside(s, t) && (s.a0 < s.a1 ==> Inside(s, t) < s.a1)
    ensures (Inside(s, t) - s.a0) % 8 == 0
  {
    hide Share;
    if s.a0 < s.a1 && s.start < t {
      var span, dur := s.a1 - s.a0, s.end - s.start;
      ShareGrows(span, now - s.start, t - s.start, dur);
      ShareBelow(span, t - s.start, dur);
    }
  }
}
