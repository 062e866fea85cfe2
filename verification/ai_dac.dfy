/** The audio DAC: two queued buffers, drained at the sample rate on the guest's clock, in whole bytes with the
    fraction carried over. */
module AiDac {
  import opened Arithmetic

  // ---- the queue ----

  /** The buffers still to play, and what is left of the first. */
  datatype Fifo = Fifo(lens: seq<nat>, left: nat)

  ghost predicate Sane(f: Fifo) {
    && |f.lens| <= 2 && (forall i | 0 <= i < |f.lens| :: f.lens[i] > 0)
    && (f.lens == [] <==> f.left == 0)
  }

  /** What is left after n more bytes. */
  function Drain(f: Fifo, n: nat): (r: Fifo)
    decreases |f.lens|
  {
    if f.lens == [] || n == 0 then f
    else if f.left > n then f.(left := f.left - n)
    else
      var rest := f.lens[1..];
      Drain(Fifo(rest, if rest == [] then 0 else rest[0]), n - f.left)
  }

  lemma {:induction false} DrainIsSane(f: Fifo, n: nat)
    requires Sane(f)
    ensures Sane(Drain(f, n)) && |Drain(f, n).lens| <= |f.lens|
    decreases |f.lens|
  {
    if f.lens != [] && n > 0 && f.left <= n {
      var rest := f.lens[1..];
      DrainIsSane(Fifo(rest, if rest == [] then 0 else rest[0]), n - f.left);
    }
  }

  /** Bytes drain the same whether they come at once or in two parts. */
  lemma {:induction false} DrainSplit(f: Fifo, n: nat, m: nat)
    requires Sane(f)
    ensures Drain(Drain(f, n), m) == Drain(f, n + m)
    decreases |f.lens|
  {
    if f.lens != [] && n > 0 && f.left <= n {
      var rest := f.lens[1..];
      DrainSplit(Fifo(rest, if rest == [] then 0 else rest[0]), n - f.left, m);
    }
  }

  /** The first buffer ends exactly when as many bytes have gone as it had left. */
  lemma DrainFinishes(f: Fifo, n: nat)
    requires Sane(f) && f.lens != []
    ensures |Drain(f, n).lens| < |f.lens| <==> n >= f.left
  {
    if n > 0 && f.left <= n {
      var rest := f.lens[1..];
      DrainIsSane(Fifo(rest, if rest == [] then 0 else rest[0]), n - f.left);
    }
  }

  // ---- the DAC ----

  /** The queue, the fraction of a byte gathered (over `den`), the instant up to which it has been gathered, and how
      many times MI_AI has been raised, once for each buffer that ended. */
  datatype Dac = Dac(fifo: Fifo, acc: nat, last: nat, raised: int)

  ghost predicate Good(s: Dac, den: nat) {
    Sane(s.fifo) && den > 0 && s.acc < den
  }

  /** Over `den`: the fraction there was and what has come since. */
  function Gained(acc: nat, d: nat, rate: nat): nat {
    acc + d * rate
  }

  /** Up to instant t without a limit: the DAC as it is. */
  function Play(s: Dac, t: nat, rate: nat, den: nat): Dac
    requires den > 0 && s.last <= t
  {
    if s.fifo.lens == [] then Dac(s.fifo, 0, t, s.raised)
    else
      var gained := Gained(s.acc, t - s.last, rate);
      var rest := Drain(s.fifo, gained / den);
      Dac(rest, gained % den, t, s.raised + |s.fifo.lens| - |rest.lens|)
  }

  /** The bytes still to play. */
  function Left(f: Fifo): nat {
    f.left + if |f.lens| > 1 then f.lens[1] else 0
  }

  lemma {:induction false} DrainTakes(f: Fifo, n: nat)
    requires Sane(f)
    ensures Left(Drain(f, n)) == if n < Left(f) then Left(f) - n else 0
    decreases |f.lens|
  {
    if f.lens != [] && n > 0 && f.left <= n {
      var rest := f.lens[1..];
      DrainTakes(Fifo(rest, if rest == [] then 0 else rest[0]), n - f.left);
    }
  }

  /** What plays: as many whole bytes as the time since the last look and the fraction left from it pay for at the rate,
      or all there are; with bytes left over, the rest of the payment is kept. */
  lemma PlaysItsBytes(s: Dac, t: nat, rate: nat, den: nat, n: nat)
    requires Good(s, den) && s.last <= t && s.fifo.lens != []
    requires n * den <= s.acc + (t - s.last) * rate < (n + 1) * den
    ensures var p := Play(s, t, rate, den);
            && Left(p.fifo) == (if n < Left(s.fifo) then Left(s.fifo) - n else 0)
            && p.acc == s.acc + (t - s.last) * rate - n * den && p.last == t
            && p.raised - s.raised == |s.fifo.lens| - |p.fifo.lens|
  {
    var gained := s.acc + (t - s.last) * rate;
    Distribute(den, n, 1);
    Quotient(gained, den, n, gained - den * n);
    DrainTakes(s.fifo, n);
  }

  /** With nothing queued nothing plays, and the fraction is void. */
  lemma SilencePlaysNothing(s: Dac, t: nat, rate: nat, den: nat)
    requires den > 0 && s.last <= t && s.fifo.lens == []
    ensures Play(s, t, rate, den) == Dac(s.fifo, 0, t, s.raised)
  {
  }

  /** The same to everyone who looks: an empty queue makes its fraction void. */
  ghost predicate Alike(a: Dac, b: Dac) {
    a.fifo == b.fifo && a.last == b.last && a.raised == b.raised && (a.fifo.lens == [] || a.acc == b.acc)
  }

  lemma PlayIsGood(s: Dac, t: nat, rate: nat, den: nat)
    requires Good(s, den) && s.last <= t
    ensures Good(Play(s, t, rate, den), den)
  {
    hide Gained, Drain;
    if s.fifo.lens != [] {
      var gained := Gained(s.acc, t - s.last, rate);
      DrainIsSane(s.fifo, gained / den);
      Euclid(gained, den);
    }
  }

  /** Looking at the DAC on the way changes nothing: not the queue, not what is left, not how many buffers ended.
      Only the void fraction of a queue that ran out in between can differ. */
  lemma PlaySplit(s: Dac, t: nat, u: nat, rate: nat, den: nat)
    requires Good(s, den) && s.last <= t <= u
    ensures Alike(Play(Play(s, t, rate, den), u, rate, den), Play(s, u, rate, den))
    ensures Play(Play(s, t, rate, den), u, rate, den) == Play(s, u, rate, den) <==>
            Play(s, t, rate, den).fifo.lens != [] || s.fifo.lens == [] || Play(s, u, rate, den).acc == 0
  {
    if s.fifo.lens != [] {
      hide Drain;
      var x, y := s.acc + (t - s.last) * rate, (u - t) * rate;
      assert (u - s.last) * rate == (t - s.last) * rate + (u - t) * rate;
      DivSplit(x, y, den);
      DrainSplit(s.fifo, x / den, (x % den + y) / den);
      if Drain(s.fifo, x / den).lens == [] { EmptyStays(Drain(s.fifo, x / den), (x % den + y) / den); }
    }
  }

  lemma EmptyStays(f: Fifo, n: nat)
    requires f.lens == []
    ensures Drain(f, n) == f
  {
  }

  /** When the buffer that plays will have ended. */
  function NextEvent(s: Dac, rate: nat, den: nat): nat
    requires rate > 0
  {
    var need := s.fifo.left * den;
    if s.acc >= need then s.last else s.last + (need - s.acc + rate - 1) / rate
  }

  /** A look at instant t finds a buffer ended exactly if t is no earlier than that. */
  lemma EndsWhenDue(s: Dac, t: nat, rate: nat, den: nat)
    requires Good(s, den) && s.fifo.lens != [] && s.last <= t && rate > 0
    ensures Play(s, t, rate, den).raised > s.raised <==> t >= NextEvent(s, rate, den)
  {
    var d := t - s.last;
    var need := s.fifo.left * den;
    var gained := s.acc + d * rate;
    DrainFinishes(s.fifo, gained / den);
    Reaches(gained, den, s.fifo.left);
    if s.acc < need { CeilThreshold(d, rate, need - s.acc); }
  }

  lemma CeilThreshold(x: nat, r: nat, n: nat)
    requires r > 0 && n > 0
    ensures x * r >= n <==> x >= (n + r - 1) / r
  {
    var c := (n + r - 1) / r;
    Euclid(n + r - 1, r);
    Distribute(r, x, 1);
    if x >= c { Grows(r, c, x); } else { Grows(r, x + 1, c); }
  }

  // ---- runs ----

  /** Someone looks at the DAC, the guest queues a buffer, or it changes the sample rate; each brings the DAC up to
      date first. */
  datatype Event = Look | Queue(len: nat) | Rate(rate: nat)

  /** A buffer goes in if there is room, and plays at once if nothing does. */
  function Queued(f: Fifo, len: nat): Fifo {
    if len > 0 && |f.lens| < 2 then Fifo(f.lens + [len], if f.lens == [] then len else f.left) else f
  }

  /** It adds its bytes behind those that are queued, unless two buffers are; what plays goes on playing. */
  lemma QueuedPlaysLast(f: Fifo, len: nat)
    requires Sane(f)
    ensures var q := Queued(f, len);
            && Sane(q) && Left(q) == Left(f) + (if |f.lens| < 2 then len else 0)
            && (f.lens != [] ==> q.left == f.left && q.lens[0] == f.lens[0])
            && (f.lens == [] && len > 0 ==> q == Fifo([len], len))
  {
  }

  function Act(s: Dac, e: Event): Dac {
    if e.Queue? then s.(fifo := Queued(s.fifo, e.len)) else s
  }

  function RateAfter(rate: nat, e: Event): nat {
    if e.Rate? then e.rate else rate
  }

  ghost predicate Rising(last: nat, times: seq<nat>) {
    && (forall i | 0 <= i < |times| :: last <= times[i])
    && forall i, j | 0 <= i < j < |times| :: times[i] <= times[j]
  }

  /** Every event in turn. */
  function Run(s: Dac, evs: seq<Event>, times: seq<nat>, rate: nat, den: nat): Dac
    requires den > 0 && |evs| == |times| && Rising(s.last, times)
    decreases |evs|
  {
    if evs == [] then s
    else
      Run(Act(Play(s, times[0], rate, den), evs[0]), evs[1..], times[1..], RateAfter(rate, evs[0]), den)
  }

  /** The same with nobody looking. */
  function Unwatched(s: Dac, evs: seq<Event>, times: seq<nat>, rate: nat, den: nat): Dac
    requires den > 0 && |evs| == |times| && Rising(s.last, times)
    decreases |evs|
  {
    if evs == [] then s
    else if evs[0].Look? then Unwatched(s, evs[1..], times[1..], rate, den)
    else
      Unwatched(Act(Play(s, times[0], rate, den), evs[0]), evs[1..], times[1..], RateAfter(rate, evs[0]), den)
  }

  /** The rate at the end. */
  function LastRate(evs: seq<Event>, rate: nat): nat
    decreases |evs|
  {
    if evs == [] then rate else LastRate(evs[1..], RateAfter(rate, evs[0]))
  }

  /** The queue does not run out, with a fraction left over, between the guest's own events. */
  ghost predicate Fed(s: Dac, evs: seq<Event>, times: seq<nat>, rate: nat, den: nat)
    requires den > 0 && |evs| == |times| && Rising(s.last, times)
    decreases |evs|
  {
    if evs == [] then true
    else if evs[0].Look? then Fed(s, evs[1..], times[1..], rate, den)
    else
      var r := Play(s, times[0], rate, den);
      && (r.fifo.lens != [] || s.fifo.lens == [] || r.acc == 0)
      && Fed(Act(r, evs[0]), evs[1..], times[1..], RateAfter(rate, evs[0]), den)
  }

  lemma RisingRest(last: nat, times: seq<nat>)
    requires times != [] && Rising(last, times)
    ensures Rising(times[0], times[1..]) && Rising(last, times[1..])
  {
  }

  lemma PlayAlike(a: Dac, b: Dac, t: nat, rate: nat, den: nat)
    requires den > 0 && a.last <= t && Alike(a, b)
    ensures Alike(Play(a, t, rate, den), Play(b, t, rate, den))
  {
    hide Drain;
  }

  lemma ActIsGood(s: Dac, e: Event, den: nat)
    requires Good(s, den)
    ensures Good(Act(s, e), den) && Act(s, e).last == s.last
  {
  }

  /** A state that was looked at on the way: it is what the unwatched one will be at that instant. */
  ghost predicate Ahead(a: Dac, b: Dac, rate: nat, den: nat)
    requires den > 0
  {
    b.last <= a.last && Alike(a, Play(b, a.last, rate, den))
  }

  lemma AheadPlays(a: Dac, b: Dac, t: nat, rate: nat, den: nat)
    requires Good(a, den) && Good(b, den) && Ahead(a, b, rate, den) && a.last <= t
    ensures Alike(Play(a, t, rate, den), Play(b, t, rate, den))
    ensures var r := Play(b, t, rate, den);
            r.fifo.lens != [] || b.fifo.lens == [] || r.acc == 0 ==> Play(a, t, rate, den) == r
  {
    hide Drain;
    PlaySplit(b, a.last, t, rate, den);
    PlayAlike(a, Play(b, a.last, rate, den), t, rate, den);
  }

  /** However often the host looks, and whenever: the queue, what is left of the buffer, the interrupts and the
      fraction are those of the DAC that nobody looks at. */
  lemma {:induction false} LooksDoNotMatter(a: Dac, b: Dac, evs: seq<Event>, times: seq<nat>, rate: nat, den: nat, end: nat)
    requires den > 0 && Good(a, den) && Good(b, den) && Ahead(a, b, rate, den)
    requires |evs| == |times| && Rising(a.last, times)
    requires Rising(b.last, times) && Fed(b, evs, times, rate, den)
    requires (if evs == [] then a.last else times[|times| - 1]) <= end
    ensures Run(a, evs, times, rate, den).last <= end && Unwatched(b, evs, times, rate, den).last <= end
    ensures Alike(Play(Run(a, evs, times, rate, den), end, LastRate(evs, rate), den),
                  Play(Unwatched(b, evs, times, rate, den), end, LastRate(evs, rate), den))
    decreases |evs|
  {
    if evs == [] {
      AheadEnds(a, b, end, rate, den);
    } else {
      hide Play, Alike, Act;
      var t := times[0];
      RisingRest(a.last, times);
      RisingRest(b.last, times);
      AheadPlays(a, b, t, rate, den);
      PlayIsGood(a, t, rate, den);
      PlayIsGood(b, t, rate, den);
      ActIsGood(Play(a, t, rate, den), evs[0], den);
      ActIsGood(Play(b, t, rate, den), evs[0], den);
      NextAhead(a, b, t, evs[0], rate, den);
      var next := Act(Play(a, t, rate, den), evs[0]);
      var other := if evs[0].Look? then b else Act(Play(b, t, rate, den), evs[0]);
      LooksDoNotMatter(next, other, evs[1..], times[1..], RateAfter(rate, evs[0]), den, end);
    }
  }

  lemma AheadEnds(a: Dac, b: Dac, end: nat, rate: nat, den: nat)
    requires Good(a, den) && Good(b, den) && Ahead(a, b, rate, den) && a.last <= end
    ensures b.last <= end && Alike(Play(a, end, rate, den), Play(b, end, rate, den))
  {
    AheadPlays(a, b, end, rate, den);
  }

  lemma NextAhead(a: Dac, b: Dac, t: nat, e: Event, rate: nat, den: nat)
    requires Good(a, den) && Good(b, den) && Ahead(a, b, rate, den) && a.last <= t
    requires var r := Play(b, t, rate, den); e.Look? || r.fifo.lens != [] || b.fifo.lens == [] || r.acc == 0
    ensures Play(a, t, rate, den).last == t && Play(b, t, rate, den).last == t
    ensures Ahead(Act(Play(a, t, rate, den), e), if e.Look? then b else Act(Play(b, t, rate, den), e), RateAfter(rate, e), den)
  {
    hide Drain;
    AheadPlays(a, b, t, rate, den);
    if !e.Look? { PlayNow(Act(Play(b, t, rate, den), e), RateAfter(rate, e), den) by { PlayIsGood(b, t, rate, den); } }
  }

  /** Playing for no time at all leaves everything that can be seen as it is. */
  lemma PlayNow(s: Dac, rate: nat, den: nat)
    requires Good(s, den)
    ensures Alike(s, Play(s, s.last, rate, den))
  {
    assert 0 * rate == 0;
    if s.fifo.lens != [] { Quotient(s.acc, den, 0, s.acc); }
  }

  /** What the guest itself does. */
  function GuestEvents(evs: seq<Event>): seq<Event> {
    if evs == [] then []
    else (if evs[0].Look? then [] else [evs[0]]) + GuestEvents(evs[1..])
  }

  function GuestTimes(evs: seq<Event>, times: seq<nat>): (r: seq<nat>)
    requires |evs| == |times|
    ensures |r| == |GuestEvents(evs)|
    decreases |evs|
  {
    if evs == [] then []
    else (if evs[0].Look? then [] else [times[0]]) + GuestTimes(evs[1..], times[1..])
  }

  /** From `last` on, no instant is before the previous one, nor later by more than `gap`. */
  ghost predicate Paced(last: nat, times: seq<nat>, gap: nat)
    decreases |times|
  {
    times == [] || (last <= times[0] <= last + gap && Paced(times[0], times[1..], gap))
  }

  lemma {:induction false} PacedRises(last: nat, times: seq<nat>, gap: nat)
    requires Paced(last, times, gap)
    ensures Rising(last, times)
    decreases |times|
  {
    if times != [] {
      PacedRises(times[0], times[1..], gap);
      forall i | 0 <= i < |times| ensures times[0] <= times[i] {
        if i > 0 { assert times[i] == times[1..][i - 1]; }
      }
      forall i, j | 0 <= i < j < |times| ensures times[i] <= times[j] {
        if i > 0 { assert times[i] == times[1..][i - 1] && times[j] == times[1..][j - 1]; }
      }
    }
  }

  /** Unwatched, only what the guest does counts. */
  lemma {:induction false} UnwatchedIsGuest(s: Dac, evs: seq<Event>, times: seq<nat>, rate: nat, den: nat)
    requires den > 0 && |evs| == |times| && Rising(s.last, times) && Rising(s.last, GuestTimes(evs, times))
    ensures Unwatched(s, evs, times, rate, den) == Run(s, GuestEvents(evs), GuestTimes(evs, times), rate, den)
    ensures LastRate(evs, rate) == LastRate(GuestEvents(evs), rate)
    decreases |evs|
  {
    hide Play, Act;
    if evs != [] {
      var ge, gt := GuestEvents(evs), GuestTimes(evs, times);
      RisingRest(s.last, times);
      if evs[0].Look? {
        assert ge == GuestEvents(evs[1..]) && gt == GuestTimes(evs[1..], times[1..]);
        UnwatchedIsGuest(s, evs[1..], times[1..], rate, den);
      } else {
        assert ge[1..] == GuestEvents(evs[1..]) && gt[1..] == GuestTimes(evs[1..], times[1..]);
        RisingRest(s.last, gt);
        var next := Act(Play(s, times[0], rate, den), evs[0]);
        PlayEnds(s, times[0], rate, den, evs[0]);
        UnwatchedIsGuest(next, evs[1..], times[1..], RateAfter(rate, evs[0]), den);
      }
    }
  }

  lemma PlayEnds(s: Dac, t: nat, rate: nat, den: nat, e: Event)
    requires den > 0 && s.last <= t
    ensures Act(Play(s, t, rate, den), e).last == t
  {
  }

  // ---- the registers ----

  class Ai {
    var lens: seq<nat>          // ai_fifo_len, the first ai_fifo_count of them
    var left: nat               // ai_play_remaining
    var acc: nat
    var last: nat               // aiLastRetired
    var dacRate: nat
    const vidClock: nat
    const field: nat            // operations per video field
    const fieldHz: nat          // thousandths
    var raised: int             // MI_AI
    var nextAt: int             // -1: never

    function State(): Dac
      reads `lens, `left, `acc, `last, `raised
    {
      Dac(Fifo(lens, left), acc, last, raised)
    }

    /** Bytes per thousand seconds. */
    function Speed(): nat
      reads `dacRate
    {
      SpeedAt(vidClock, dacRate)
    }

    /** Operations per thousand seconds. */
    function Den(): nat
    {
      field * fieldHz
    }

    ghost predicate Valid()
      reads this
    {
      Good(State(), Den())
    }

    /** The deadline is that of the buffer that plays. */
    ghost predicate Armed()
      requires Den() > 0
      reads this
    {
      nextAt == if lens == [] || Speed() == 0 then -1 else NextEvent(State(), Speed(), Den())
    }

    /** Where the time that a look at t accounts for begins: a clock set back counts nothing, a jump of more than four
        fields counts four. */
    function From(t: nat): (f: nat)
      reads `last
      ensures f <= t
    {
      if t < last then t else if t - last > field * 4 then t - field * 4 else last
    }

    /** The time that a look accounts for: what has gone since the last one, but no more than four fields. */
    lemma TimeCounted(t: nat)
      ensures t - From(t) <= field * 4
      ensures t - From(t) == if t < last then 0 else if t - last <= field * 4 then t - last else field * 4
    {
    }

    constructor (clock: nat, insns: nat, hz: nat)
      requires insns > 0 && hz > 0
      ensures Valid() && State() == Dac(Fifo([], 0), 0, 0, 0) && dacRate == 0
      ensures vidClock == clock && field == insns && fieldHz == hz
    {
      vidClock, field, fieldHz := clock, insns, hz;
      lens, left, acc, last, dacRate, raised, nextAt := [], 0, 0, 0, 0, 0, -1;
      new;
      assert insns * hz > 0;
    }

    /** aiTick: everything that has played since the last look, buffer after buffer. */
    method Tick(t: nat)
      requires Valid()
      modifies this`lens, this`left, this`acc, this`last, this`raised, this`nextAt
      ensures Valid() && State() == Play(old(State()).(last := old(From(t))), t, Speed(), Den())
      ensures Armed()
    {
      hide Speed, Den, Drain, NextEvent, Gained;
      ghost var s := State().(last := From(t));
      PlayIsGood(s, t, Speed(), Den());
      var delta := if t > last then t - last else 0;
      last := t;
      if |lens| == 0 { acc, nextAt := 0, -1; return; }
      if delta > field * 4 { delta := field * 4; }
      var bytes := Gain(delta);
      DrainLoop(bytes);
      nextAt := Arm();
    }

    /** The whole bytes of the time that has passed; the fraction stays. */
    method Gain(delta: nat) returns (bytes: nat)
      requires Den() > 0
      modifies this`acc
      ensures var gained := Gained(old(acc), delta, Speed()); bytes == gained / Den() && acc == gained % Den()
    {
      hide Speed, Den;
      acc := acc + delta * Speed();
      bytes := acc / Den();
      Divide(acc, Den());
      acc := acc - bytes * Den();
    }

    /** The loop of aiTick over the buffers. */
    method DrainLoop(n: nat)
      requires Sane(Fifo(lens, left))
      modifies this`lens, this`left, this`raised
      ensures Fifo(lens, left) == Drain(old(Fifo(lens, left)), n) && raised == old(raised) + |old(lens)| - |lens|
    {
      var bytes: nat := n;
      while bytes != 0 && |lens| != 0
        invariant Sane(Fifo(lens, left)) && raised == old(raised) + |old(lens)| - |lens|
        invariant Drain(Fifo(lens, left), bytes) == Drain(old(Fifo(lens, left)), n)
        decreases |lens|
      {
        if left > bytes { left := left - bytes; break; }
        bytes := bytes - left;
        lens := lens[1..];
        raised := raised + 1;
        left := if |lens| != 0 then lens[0] else 0;
      }
    }

    /** aiNextEvent. */
    method Arm() returns (at: int)
      requires Den() > 0
      ensures at == if lens == [] || Speed() == 0 then -1 else NextEvent(State(), Speed(), Den())
    {
      if |lens| == 0 || Speed() == 0 { return -1; }
      var need := left * Den();
      if acc >= need { return last; }
      return last + (need - acc + Speed() - 1) / Speed();
    }

    /** A write of AI_LEN. */
    method WriteLen(v: nat, t: nat)
      requires Valid()
      modifies this`lens, this`left, this`acc, this`last, this`raised, this`nextAt
      ensures Valid() && Armed()
      ensures State() == Act(Play(old(State()).(last := old(From(t))), t, Speed(), Den()), Queue(v % 0x4_0000))
    {
      Tick(t);
      var len := v % 0x4_0000;
      if len != 0 && |lens| < 2 {
        if |lens| == 0 { left := len; }
        lens := lens + [len];
        nextAt := Arm();
      }
    }

    /** A write of AI_DACRATE: what has played so far played at the old rate. */
    method WriteRate(v: nat, t: nat)
      requires Valid()
      modifies this`lens, this`left, this`acc, this`last, this`raised, this`nextAt, this`dacRate
      ensures Valid() && Armed() && dacRate == v % 0x4000
      ensures State() == Play(old(State()).(last := old(From(t))), t, old(Speed()), Den())
    {
      Tick(t);
      dacRate := v % 0x4000;
      nextAt := Arm();
    }

    /** Looks and writes, in order. */
    method Serve(calls: seq<Call>, times: seq<nat>)
      requires Valid() && |calls| == |times| && Paced(last, times, field * 4)
      modifies this`lens, this`left, this`acc, this`last, this`raised, this`nextAt, this`dacRate
      ensures Valid() && Rising(old(last), times)
      ensures State() == Run(old(State()), Events(vidClock, calls), times, old(Speed()), Den())
      ensures Speed() == LastRate(Events(vidClock, calls), old(Speed()))
    {
      hide Speed, Den, Play, Act;
      PacedRises(last, times, field * 4);
      ghost var evs := Events(vidClock, calls);
      for i := 0 to |calls|
        invariant Valid() && Paced(last, times[i..], field * 4) && Rising(last, times[i..])
        invariant Run(State(), evs[i..], times[i..], Speed(), Den()) == Run(old(State()), evs, times, old(Speed()), Den())
        invariant LastRate(evs[i..], Speed()) == LastRate(evs, old(Speed()))
      {
        assert evs[i..][0] == evs[i] && evs[i..][1..] == evs[i + 1..];
        assert times[i..][0] == times[i] && times[i..][1..] == times[i + 1..];
        RisingRest(last, times[i..]);
        assert From(times[i]) == last && State().(last := last) == State();
        PlayEnds(State(), times[i], Speed(), Den(), evs[i]);
        match calls[i]
        case See =>
          Tick(times[i]);
          Looked(State());
        case Len(v) => WriteLen(v, times[i]);
        case DacRate(v) =>
          WriteRate(v, times[i]);
          Rated(this);
      }
      assert evs[|calls|..] == [] && times[|calls|..] == [];
    }
  }

  /** The registers' side of the events. */
  datatype Call = See | Len(v: nat) | DacRate(v: nat)

  function SpeedAt(clock: nat, dacRate: nat): nat {
    (if dacRate != 0 then clock / (dacRate + 1) else 32000) * 4000
  }

  /** Four bytes a sample, in bytes per thousand seconds: at the reset rate 32000 samples a second, and otherwise as many
      whole ones as the clock gives when it is divided by one more than the register. */
  lemma SpeedIs(clock: nat, dacRate: nat, samples: nat)
    requires if dacRate == 0 then samples == 32000 else samples * (dacRate + 1) <= clock < (samples + 1) * (dacRate + 1)
    ensures SpeedAt(clock, dacRate) == samples * 4 * 1000
  {
    if dacRate != 0 {
      Distribute(dacRate + 1, samples, 1);
      Quotient(clock, dacRate + 1, samples, clock - (dacRate + 1) * samples);
    }
  }

  function Events(clock: nat, calls: seq<Call>): (evs: seq<Event>)
    ensures |evs| == |calls|
  {
    seq(|calls|, i requires 0 <= i < |calls| => EventOf(clock, calls[i]))
  }

  function EventOf(clock: nat, c: Call): Event {
    match c
    case See => Look
    case Len(v) => Queue(v % 0x4_0000)
    case DacRate(v) => Rate(SpeedAt(clock, v % 0x4000))
  }

  lemma Looked(s: Dac)
    ensures Act(s, Look) == s && forall r :: Act(s, Rate(r)) == s
  {
  }

  lemma Rated(ai: Ai)
    ensures ai.Speed() == SpeedAt(ai.vidClock, ai.dacRate) && forall r :: Act(ai.State(), Rate(r)) == ai.State()
  {
  }

  /** The guest's calls, without the looks. */
  function GuestCalls(calls: seq<Call>): seq<Call> {
    if calls == [] then []
    else (if calls[0].See? then [] else [calls[0]]) + GuestCalls(calls[1..])
  }

  lemma {:induction false} GuestCallsAreEvents(clock: nat, calls: seq<Call>)
    ensures Events(clock, GuestCalls(calls)) == GuestEvents(Events(clock, calls))
    decreases |calls|
  {
    if calls != [] {
      GuestCallsAreEvents(clock, calls[1..]);
      assert Events(clock, calls)[1..] == Events(clock, calls[1..]);
      assert Events(clock, calls)[0] == EventOf(clock, calls[0]);
    }
  }

  lemma {:induction false} PacedFront(last: nat, times: seq<nat>, end: nat, gap: nat)
    requires Paced(last, times + [end], gap)
    ensures Paced(last, times, gap)
    ensures var l := if times == [] then last else times[|times| - 1]; l <= end <= l + gap
    decreases |times|
  {
    if times != [] {
      assert (times + [end])[1..] == times[1..] + [end];
      PacedFront(times[0], times[1..], end, gap);
    }
  }

  lemma {:induction false} RunEnds(s: Dac, evs: seq<Event>, times: seq<nat>, rate: nat, den: nat)
    requires den > 0 && |evs| == |times| && Rising(s.last, times)
    ensures Run(s, evs, times, rate, den).last == if times == [] then s.last else times[|times| - 1]
    decreases |evs|
  {
    hide Play, Act;
    if evs != [] {
      RisingRest(s.last, times);
      PlayEnds(s, times[0], rate, den, evs[0]);
      RunEnds(Act(Play(s, times[0], rate, den), evs[0]), evs[1..], times[1..], RateAfter(rate, evs[0]), den);
    }
  }

  /** The whole run on values: what both DACs come to. */
  lemma SameInTheEnd(s: Dac, evs: seq<Event>, times: seq<nat>, rate: nat, den: nat, end: nat)
    requires Good(s, den) && |evs| == |times| && Rising(s.last, times) && Rising(s.last, GuestTimes(evs, times))
    requires Fed(s, evs, times, rate, den) && (if evs == [] then s.last else times[|times| - 1]) <= end
    ensures var a := Run(s, evs, times, rate, den);
            var b := Run(s, GuestEvents(evs), GuestTimes(evs, times), rate, den);
            && a.last <= end && b.last <= end && LastRate(GuestEvents(evs), rate) == LastRate(evs, rate)
            && Alike(Play(a, end, LastRate(evs, rate), den), Play(b, end, LastRate(evs, rate), den))
  {
    hide Play, Alike, Act, Fed, Run, Unwatched;
    PlayNow(s, rate, den);
    LooksDoNotMatter(s, s, evs, times, rate, den, end);
    UnwatchedIsGuest(s, evs, times, rate, den);
  }

  /** Two DACs in the same state, one looked at in between and one left to the guest's own writes, both with no gap of
      more than four fields: as long as the queue stays fed they cannot be told apart. */
  method LooksLeaveNoTrace(a: Ai, b: Ai, calls: seq<Call>, times: seq<nat>, end: nat)
    requires a != b && a.Valid() && b.Valid() && a.State() == b.State() && a.dacRate == b.dacRate
    requires a.vidClock == b.vidClock && a.field == b.field && a.fieldHz == b.fieldHz
    requires |calls| == |times| && Paced(a.last, times + [end], a.field * 4)
    requires Paced(a.last, GuestTimes(Events(a.vidClock, calls), times) + [end], a.field * 4)
    requires Rising(a.last, times) && Fed(a.State(), Events(a.vidClock, calls), times, a.Speed(), a.Den())
    modifies a, b
    ensures Alike(a.State(), b.State()) && a.Speed() == b.Speed()
  {
    hide Play, Alike, Act, Fed, Run, SpeedAt, Ai.Den;
    ghost var s, evs, rate, den := a.State(), Events(a.vidClock, calls), a.Speed(), a.Den();
    assert b.Den() == den by { SameDen(a, b); }
    var gt := GuestTimes(Events(a.vidClock, calls), times);
    PacedFront(a.last, times, end, a.field * 4);
    PacedFront(a.last, gt, end, a.field * 4);
    PacedRises(a.last, gt, a.field * 4);
    GuestCallsAreEvents(a.vidClock, calls);
    SameInTheEnd(s, evs, times, rate, den, end);
    RunEnds(s, evs, times, rate, den);
    RunEnds(s, GuestEvents(evs), gt, rate, den);
    a.Serve(calls, times);
    b.Serve(GuestCalls(calls), gt);
    a.Tick(end);
    b.Tick(end);
  }

  lemma SameDen(a: Ai, b: Ai)
    requires a.field == b.field && a.fieldHz == b.fieldHz
    ensures a.Den() == b.Den()
  {
  }

  const STOCK := 128_000_000         // bytes in a thousand seconds, at the reset rate
  const CLOCK := 93_750_000_000      // operations in a thousand seconds

  function Eight(acc: nat, last: nat, raised: int): Dac { Dac(Fifo([8], 8), acc, last, raised) }

  lemma EightQueued()
    ensures Act(Play(Dac(Fifo([], 0), 0, 0, 0), 0, STOCK, CLOCK), Queue(8)) == Eight(0, 0, 0)
  {
  }

  lemma EightPlayed(t: nat, acc: nat)
    requires t * STOCK == 8 * CLOCK + acc && acc < CLOCK
    ensures Play(Eight(0, 0, 0), t, STOCK, CLOCK) == Dac(Fifo([], 0), acc, t, 1)
  {
    Quotient(t * STOCK, CLOCK, 8, acc);
    assert Drain(Fifo([8], 8), 8) == Drain(Fifo([], 0), 0) == Fifo([], 0);
  }

  lemma EightRequeued()
    ensures Act(Play(Dac(Fifo([], 0), 80_000_000, 5860, 1), 6000, STOCK, CLOCK), Queue(8)) == Eight(0, 6000, 1)
    ensures Act(Dac(Fifo([], 0), 18_000_000_000, 6000, 1), Queue(8)) == Eight(18_000_000_000, 6000, 1)
    ensures NextEvent(Eight(0, 6000, 1), STOCK, CLOCK) == 11860
    ensures NextEvent(Eight(18_000_000_000, 6000, 1), STOCK, CLOCK) == 11719
  {
  }

  lemma StockRate(ai: Ai)
    requires ai.dacRate == 0 && ai.field == 1_562_500 && ai.fieldHz == 60_000
    ensures ai.Speed() == STOCK && ai.Den() == CLOCK
  {
  }

  /** If the queue does run dry with a fraction left over, a look voids the fraction and the next interrupt moves. At
      1,562,500 operations a field and 60 fields a second, with the reset rate, a buffer of 8 bytes queued at 0 ends at
      5860; another queued at 6000 ends at 11860 if someone looked at 5860, and at 11719 if nobody did. */
  method LookCanMatter() returns (looked: int, unlooked: int)
    ensures looked == 11860 && unlooked == 11719
  {
    hide Play, Act, NextEvent, Ai.Speed, Ai.Den, SpeedAt;
    EightQueued();
    EightPlayed(5860, 80_000_000);
    EightPlayed(6000, 18_000_000_000);
    EightRequeued();
    var a := new Ai(0, 1_562_500, 60_000);
    StockRate(a);
    a.WriteLen(8, 0);
    a.Tick(5860);
    a.WriteLen(8, 6000);
    looked := a.nextAt;
    var b := new Ai(0, 1_562_500, 60_000);
    StockRate(b);
    b.WriteLen(8, 0);
    b.WriteLen(8, 6000);
    unlooked := b.nextAt;
  }
}
