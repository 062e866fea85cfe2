/** The video beam: where it is at an instant of the guest's clock, and when it interrupts or closes a field. */
module ViBeam {
  import opened Arithmetic

  // ---- the beam ----

  /** The video registers that the beam depends on: the programmed half-line, the half-lines of a field, whether the
      picture is interlaced, and how many operations a field lasts. */
  datatype Video = Video(intr: nat, vsync: nat, serrate: bool, fieldInsns: nat)

  function Field(v: Video): (f: nat)
    ensures f > 0
  {
    if v.fieldInsns != 0 then v.fieldInsns else 1
  }

  function Halflines(v: Video): (h: nat)
    ensures h >= 2
  {
    if v.vsync % 0x400 >= 2 then v.vsync % 0x400 else 525
  }

  /** The programmed half-line: the low bit does not count. */
  function Line(v: Video): nat {
    v.intr % 0x400 / 2 * 2
  }

  /** n / f of h, rounded down. */
  function Part(n: nat, h: nat, f: nat): nat
    requires f > 0
  {
    n * h / f
  }

  /** When in a field the beam passes the programmed line. */
  function Offset(v: Video): nat {
    Part(Line(v), Field(v), Halflines(v))
  }

  /** How often the beam has passed it by instant x. */
  function Crossings(v: Video, x: nat): nat {
    if x >= Offset(v) then (x - Offset(v)) / Field(v) + 1 else 0
  }

  function FieldsClosed(v: Video, x: nat): nat {
    x / Field(v)
  }

  /** The half-line the beam is on; in an interlaced picture the low bit is the field. */
  function CurrentAt(v: Video, t: nat): nat {
    var hl := Part(t % Field(v), Halflines(v), Field(v));
    if v.serrate then hl / 2 * 2 + t / Field(v) % 2 else hl
  }

  function NextMultiple(n: nat, f: nat): nat
    requires f > 0
  {
    (n / f + 1) * f
  }

  function NextLine(v: Video, now: nat): nat {
    if now < Offset(v) then Offset(v) else Offset(v) + NextMultiple(now - Offset(v), Field(v))
  }

  function NextField(v: Video, now: nat): nat {
    NextMultiple(now, Field(v))
  }

  function NextEvent(v: Video, now: nat): nat {
    if NextLine(v, now) < NextField(v, now) then NextLine(v, now) else NextField(v, now)
  }

  /** When the beam passes the programmed line for the k-th time, and when it closes the k-th field. */
  function LineInstant(v: Video, k: nat): nat { Offset(v) + k * Field(v) }

  function FieldInstant(v: Video, k: nat): nat { (k + 1) * Field(v) }

  /** The two counts are of those instants. */
  lemma CrossingsCount(v: Video, x: nat, k: nat)
    ensures k < Crossings(v, x) <==> LineInstant(v, k) <= x
    ensures k < FieldsClosed(v, x) <==> FieldInstant(v, k) <= x
  {
    var o, f := Offset(v), Field(v);
    hide Offset, Field;
    Grows(f, 0, k);
    if x >= o { Reaches(x - o, f, k); }
    Reaches(x, f, k + 1);
  }

  /** Between two looks a count goes up exactly if one of its instants lies between them. */
  lemma Passed(v: Video, last: nat, now: nat)
    ensures Crossings(v, now) > Crossings(v, last) <==> exists k: nat :: last < LineInstant(v, k) <= now
    ensures FieldsClosed(v, now) > FieldsClosed(v, last) <==> exists k: nat :: last < FieldInstant(v, k) <= now
  {
    hide Crossings, FieldsClosed, LineInstant, FieldInstant;
    forall k: nat
      ensures k < Crossings(v, now) <==> LineInstant(v, k) <= now
      ensures k < Crossings(v, last) <==> LineInstant(v, k) <= last
      ensures k < FieldsClosed(v, now) <==> FieldInstant(v, k) <= now
      ensures k < FieldsClosed(v, last) <==> FieldInstant(v, k) <= last
    {
      CrossingsCount(v, now, k);
      CrossingsCount(v, last, k);
    }
    if Crossings(v, now) > Crossings(v, last) { assert last < LineInstant(v, Crossings(v, last)) <= now; }
    if FieldsClosed(v, now) > FieldsClosed(v, last) { assert last < FieldInstant(v, FieldsClosed(v, last)) <= now; }
  }

  lemma LineIsNext(v: Video, now: nat, x: nat)
    requires now <= x
    ensures Crossings(v, x) > Crossings(v, now) <==> x >= NextLine(v, now)
    ensures x <= NextLine(v, now) ==> Crossings(v, x) <= Crossings(v, now) + 1
  {
    var o, f := Offset(v), Field(v);
    hide Offset, Field;
    if now >= o {
      var k := (now - o) / f + 1;
      Reaches(x - o, f, k);
      if x <= o + k * f { Reaches(x - o, f, k + 1); Distribute(f, k, 1); }
    } else if x >= o {
      Reaches(x - o, f, 0);
      if x <= o { Reaches(x - o, f, 1); }
    }
  }

  lemma FieldIsNext(v: Video, now: nat, x: nat)
    requires now <= x
    ensures FieldsClosed(v, x) > FieldsClosed(v, now) <==> x >= NextField(v, now)
    ensures x <= NextField(v, now) ==> FieldsClosed(v, x) <= FieldsClosed(v, now) + 1
  {
    var f := Field(v);
    hide Field;
    Reaches(x, f, now / f + 1);
    Reaches(x, f, now / f + 2);
    Distribute(f, now / f + 1, 1);
  }

  /** A look at instant x after one at `now` finds something exactly if x is no earlier than the armed deadline; up to
      the deadline it finds at most one line and one field. */
  lemma EventIsNext(v: Video, now: nat, x: nat)
    requires now <= x
    ensures (Crossings(v, x) > Crossings(v, now) || FieldsClosed(v, x) > FieldsClosed(v, now)) <==>
            x >= NextEvent(v, now)
    ensures x <= NextEvent(v, now) ==>
              Crossings(v, x) <= Crossings(v, now) + 1 && FieldsClosed(v, x) <= FieldsClosed(v, now) + 1
  {
    hide Crossings, FieldsClosed, NextLine, NextField;
    LineIsNext(v, now, x);
    FieldIsNext(v, now, x);
  }

  /** The registers: ten bits of V_SYNC, of which 0 and 1 stand for 525 half-lines, and nine of the ten bits of V_INTR. */
  lemma RegistersAre(v: Video, h: nat, x: nat, q: nat, r: nat)
    requires x < 0x400 && q < 0x200 && r < 2
    ensures Halflines(v.(vsync := h * 0x400 + x)) == if x < 2 then 525 else x
    ensures Line(v.(intr := h * 0x400 + 2 * q + r)) == 2 * q
    ensures v.fieldInsns == 0 ==> Field(v) == 1
    ensures v.fieldInsns > 0 ==> Field(v) == v.fieldInsns
  {
    Quotient(h * 0x400 + x, 0x400, h, x);
    Quotient(h * 0x400 + 2 * q + r, 0x400, h, 2 * q + r);
    Quotient(2 * q + r, 2, q, r);
  }

  /** Where the beam is `pos` operations into field k: on the half-line whose share of the field has begun and not ended;
      interlaced, the low bit is that of the field's number instead. */
  lemma BeamAt(v: Video, k: nat, pos: nat)
    requires pos < Field(v)
    ensures var t := k * Field(v) + pos;
            var hl := CurrentAt(v.(serrate := false), t);
            && hl * Field(v) <= pos * Halflines(v) < (hl + 1) * Field(v)
            && CurrentAt(v.(serrate := true), t) / 2 == hl / 2 && CurrentAt(v.(serrate := true), t) % 2 == k % 2
  {
    var f, h := Field(v), Halflines(v);
    Quotient(k * f + pos, f, k, pos);
    SameBeam(v);
    hide Field, Halflines;
    var hl := pos * h / f;
    Euclid(pos * h, f);
    Distribute(f, hl, 1);
  }

  lemma SameBeam(v: Video)
    ensures forall b :: Field(v.(serrate := b)) == Field(v) && Halflines(v.(serrate := b)) == Halflines(v)
  {
  }

  /** And the first operation of a field at which the programmed half-line has begun, but for rounding. */
  lemma OffsetAt(v: Video)
    ensures Offset(v) * Halflines(v) <= Line(v) * Field(v) < (Offset(v) + 1) * Halflines(v)
  {
    var h, n := Halflines(v), Line(v) * Field(v);
    hide Halflines, Line, Field;
    Euclid(n, h);
    Distribute(h, n / h, 1);
  }

  /** At the interrupt the beam is on the programmed line or one before it, provided the line exists and a field has
      an operation for each half-line; on the line itself exactly when the line falls on a whole operation. */
  lemma LineAtInterrupt(v: Video, k: nat)
    requires Line(v) < Halflines(v) <= Field(v) && !v.serrate
    ensures var t := Offset(v) + k * Field(v);
            && Crossings(v, t) == k + 1
            && (CurrentAt(v, t) == Line(v) || CurrentAt(v, t) + 1 == Line(v))
            && (CurrentAt(v, t) == Line(v) <==> Line(v) * Field(v) % Halflines(v) == 0)
  {
    var f, h, l, o := Field(v), Halflines(v), Line(v), Offset(v);
    hide Field, Halflines, Line, Offset;
    OffsetInField(l, f, h, o) by { OffsetIs(v); }
    Quotient(o + k * f, f, k, o);
    OffsetIs(v);
    BeamIs(l, f, h, o);
    Quotient(k * f, f, k, 0);
  }

  lemma OffsetIs(v: Video)
    ensures Offset(v) == Line(v) * Field(v) / Halflines(v)
  {
  }

  lemma OffsetInField(l: nat, f: nat, h: nat, o: nat)
    requires f > 0 && h > 0 && l < h && o == l * f / h
    ensures o < f
  {
    Euclid(l * f, h);
    Distribute(f, l, 1);
    if o >= f { Grows(h, f, o); Grows(f, l + 1, h); }
  }

  lemma BeamIs(l: nat, f: nat, h: nat, o: nat)
    requires f > 0 && h > 0 && h <= f && o == l * f / h
    ensures var hl := o * h / f;
            (hl == l || hl + 1 == l) && (hl == l <==> l * f % h == 0)
  {
    Euclid(l * f, h);
    var hl := o * h / f;
    Euclid(o * h, f);
    Reaches(o * h, f, l);
    Reaches(o * h, f, l + 1);
    Distribute(f, l, 1);
    if l > 0 {
      Reaches(o * h, f, l - 1);
      Distribute(f, l - 1, 1);
    }
  }

  // ---- the registers ----

  class Vi {
    var v: Video
    var last: nat           // viLastRetired
    var fields: nat         // viFields
    var raised: nat         // MI_VI
    var current: nat        // vi_current
    var nextAt: nat         // viNextAt

    constructor (video: Video)
      ensures v == video && last == 0 && fields == 0 && raised == 0
    {
      v, last, fields, raised, current, nextAt := video, 0, 0, 0, 0, 0;
    }

    /** viTick: one interrupt if the beam has passed the line since the last look, one field if it has begun another,
        however many there were. */
    method Tick(now: nat) returns (fieldClose: bool)
      modifies this`last, this`fields, this`raised, this`current, this`nextAt
      ensures last == now && nextAt == NextEvent(v, now)
      ensures fieldClose <==> exists k: nat :: old(last) < FieldInstant(v, k) <= now
      ensures fields == old(fields) + if fieldClose then 1 else 0
      ensures raised == old(raised) + if exists k: nat :: old(last) < LineInstant(v, k) <= now then 1 else 0
      ensures current == if v.serrate then CurrentAt(v, now) else CurrentAt(v, now) / 2 * 2
    {
      hide Crossings, FieldsClosed, NextEvent, CurrentAt, LineInstant, FieldInstant;
      Passed(v, last, now);
      var intrFire := Crossings(v, now) > Crossings(v, last);
      fieldClose := FieldsClosed(v, now) > FieldsClosed(v, last);
      last := now;
      current := if v.serrate then CurrentAt(v, now) else CurrentAt(v, now) / 2 * 2;
      if intrFire { raised := raised + 1; }
      if fieldClose { fields := fields + 1; }
      nextAt := NextEvent(v, now);
    }

    /** A write of VI_INTR or VI_V_SYNC: from now on another line counts, and the deadline is armed for it from the
        last look on. */
    method Program(intr: bool, x: nat)
      modifies this`v, this`nextAt
      ensures v == (if intr then old(v).(intr := x % 0x400) else old(v).(vsync := x)) && nextAt == NextEvent(v, last)
    {
      v := if intr then v.(intr := x % 0x400) else v.(vsync := x);
      nextAt := NextEvent(v, last);
    }

    /** A run that looks at every deadline, and wherever else it likes, and reprograms the line whenever it likes,
        raises MI_VI once each time the beam passes the line that is then programmed, and closes as many fields as go
        by. */
    method Run(steps: seq<Step>)
      requires OnTime(v, last, steps)
      modifies this
      ensures raised == old(raised) + Lines(old(v), old(last), steps)
      ensures fields + FieldsClosed(old(v), old(last)) == old(fields) + FieldsClosed(old(v), last)
      ensures last == LastLook(old(last), steps) && Field(v) == old(Field(v))
    {
      hide Crossings, NextEvent, CurrentAt, LineInstant, FieldInstant, FieldsClosed;
      ghost var was := raised;
      for i := 0 to |steps|
        invariant OnTime(v, last, steps[i..]) && v.fieldInsns == old(v).fieldInsns
        invariant raised + Lines(v, last, steps[i..]) == was + Lines(old(v), old(last), steps)
        invariant fields + FieldsClosed(old(v), old(last)) == old(fields) + FieldsClosed(old(v), last)
        invariant LastLook(last, steps[i..]) == LastLook(old(last), steps)
      {
        assert steps[i..][0] == steps[i] && steps[i..][1..] == steps[i + 1..];
        match steps[i]
        case Look(at) =>
          OneAtMost(v, last, at);
          SameFields(v, old(v), last);
          SameFields(v, old(v), at);
          var _ := Tick(at);
        case Write(intr, x) => Program(intr, x);
      }
      assert steps[|steps|..] == [];
    }
  }

  function Programmed(v: Video, intr: bool, x: nat): Video {
    if intr then v.(intr := x % 0x400) else v.(vsync := x)
  }

  /** A look, or a write of VI_INTR or VI_V_SYNC. */
  datatype Step = Look(at: nat) | Write(intr: bool, x: nat)

  /** No look comes later than the deadline armed when it comes. */
  ghost predicate OnTime(v: Video, last: nat, steps: seq<Step>)
    decreases |steps|
  {
    steps == [] ||
    match steps[0]
    case Look(at) => last <= at <= NextEvent(v, last) && OnTime(v, at, steps[1..])
    case Write(intr, x) => OnTime(Programmed(v, intr, x), last, steps[1..])
  }

  /** How often the beam passes the line, as it is programmed at each look, between one look and the next. */
  ghost function Lines(v: Video, last: nat, steps: seq<Step>): int
    decreases |steps|
  {
    if steps == [] then 0
    else
      match steps[0]
      case Look(at) => Crossings(v, at) - Crossings(v, last) + Lines(v, at, steps[1..])
      case Write(intr, x) => Lines(Programmed(v, intr, x), last, steps[1..])
  }

  function LastLook(last: nat, steps: seq<Step>): nat
    decreases |steps|
  {
    if steps == [] then last
    else LastLook(if steps[0].Look? then steps[0].at else last, steps[1..])
  }

  /** With the line left alone that is how often it passes it in all. */
  lemma {:induction false} LinesAddUp(v: Video, last: nat, steps: seq<Step>)
    requires forall i | 0 <= i < |steps| :: steps[i].Look?
    ensures Lines(v, last, steps) == Crossings(v, LastLook(last, steps)) - Crossings(v, last)
    decreases |steps|
  {
    hide Crossings;
    if steps != [] { LinesAddUp(v, steps[0].at, steps[1..]); }
  }

  /** From power-on: every time the beam passes the line after instant 0, and every field. */
  method FromPowerOn(video: Video, steps: seq<Step>) returns (vi: Vi)
    requires OnTime(video, 0, steps) && forall i | 0 <= i < |steps| :: steps[i].Look?
    ensures fresh(vi) && vi.last == LastLook(0, steps) && vi.fields == FieldsClosed(video, vi.last)
    ensures vi.raised == Crossings(video, vi.last) - if Offset(video) == 0 then 1 else 0
  {
    vi := new Vi(video);
    LinesAddUp(video, 0, steps);
    vi.Run(steps);
    AtPowerOn(video);
  }

  /** At instant 0 the beam stands on line 0, and that is not a crossing. */
  lemma AtPowerOn(v: Video)
    ensures Crossings(v, 0) == (if Offset(v) == 0 then 1 else 0) && FieldsClosed(v, 0) == 0
  {
    var f := Field(v);
    hide Field, Offset;
    Quotient(0, f, 0, 0);
  }

  lemma SameFields(v: Video, w: Video, x: nat)
    requires v.fieldInsns == w.fieldInsns
    ensures FieldsClosed(v, x) == FieldsClosed(w, x)
  {
  }

  /** Up to the deadline a look finds what there was to find. */
  lemma OneAtMost(v: Video, last: nat, at: nat)
    requires last <= at <= NextEvent(v, last)
    ensures Crossings(v, at) == Crossings(v, last) + if exists k: nat :: last < LineInstant(v, k) <= at then 1 else 0
    ensures FieldsClosed(v, at) ==
            FieldsClosed(v, last) + if exists k: nat :: last < FieldInstant(v, k) <= at then 1 else 0
  {
    hide Crossings, FieldsClosed, NextLine, NextField, LineInstant, FieldInstant;
    EventIsNext(v, last, at);
    Passed(v, last, at);
    Grow(v, last, at);
  }

  /** The beam does not go back. */
  lemma Grow(v: Video, now: nat, x: nat)
    requires now <= x
    ensures Crossings(v, now) <= Crossings(v, x) && FieldsClosed(v, now) <= FieldsClosed(v, x)
  {
    hide Crossings, FieldsClosed, LineInstant, FieldInstant;
    CrossingsCount(v, now, Crossings(v, x));
    CrossingsCount(v, x, Crossings(v, x));
    CrossingsCount(v, now, FieldsClosed(v, x));
    CrossingsCount(v, x, FieldsClosed(v, x));
  }
}
