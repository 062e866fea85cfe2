/** Whole runs of the SP_STATUS signals: what the signal processor reads at each of its instants, and why the host does not
    show in it. */
module SpRun {
  import opened Arithmetic
  import opened SpSignals

  /** The CPU writes at its instant, the signal processor writes at its own, it reads, it fetches what the CPU had written
      to RDRAM by instant `upto`, and the CPU launches it. */
  datatype Step =
    | Write(clear: Sig, set_: Sig, at: nat, late: bool)
    | Own(clear: Sig, set_: Sig)
    | Ask(now: nat)
    | Fetch(upto: nat, now: nat)
    | Launch

  // ---- what is to be seen ----

  /** The live register. */
  function Live(start: Sig, h: seq<Step>): Sig
    decreases |h|
  {
    if h == [] then start
    else
      var n := |h| - 1;
      match h[n]
      case Write(clear, set_, _, _) => Apply(Live(start, h[..n]), clear, set_)
      case Own(clear, set_) => Apply(Live(start, h[..n]), clear, set_)
      case _ => Live(start, h[..n])
  }

  function Later(a: int, b: int): int { if a < b then b else a }

  /** What the signal processor is to see at instant t when it has fetched what was made by instant u: each write of the
      CPU from its instant on, rounded up to the quantum, or as soon as it was fetched or made before a launch; and what
      it flipped itself at once. */
  function SeesWith(q: nat, start: Sig, h: seq<Step>, t: nat, u: int): Sig
    requires q > 0
    decreases |h|
  {
    if h == [] then start
    else
      var n := |h| - 1;
      match h[n]
      case Write(_, _, at, _) =>
        if t < Quantised(at + 1, q) && u < at + 1 then SeesWith(q, start, h[..n], t, u) else Live(start, h)
      case Own(_, _) =>
        Mixed(Changed(Live(start, h[..n]), Live(start, h)), Live(start, h), SeesWith(q, start, h[..n], t, u))
      case Ask(_) => SeesWith(q, start, h[..n], t, u)
      case Fetch(upto, _) => SeesWith(q, start, h[..n], t, Later(u, upto))
      case Launch => Live(start, h)
  }

  /** Nothing fetched beyond what the run itself fetches. */
  function Sees(q: nat, start: Sig, h: seq<Step>, t: nat): Sig
    requires q > 0
  {
    SeesWith(q, start, h, t, -1)
  }

  function BroughtIn(ds: seq<Date>, upto: nat, now: nat): seq<Date> {
    if ds == [] || ds[0].raw > upto then ds
    else [Date(Earlier(ds[0].raw, now), ds[0].raw)] + BroughtIn(ds[1..], upto, now)
  }

  /** The writes that wait to be seen. */
  function Waiting(q: nat, start: Sig, h: seq<Step>): seq<Date>
    requires q > 0
    decreases |h|
  {
    if h == [] then []
    else
      var n := |h| - 1;
      var before := Waiting(q, start, h[..n]);
      match h[n]
      case Write(_, _, at, late) =>
        before + if Live(start, h) == Live(start, h[..n]) && !late then [] else [Date(Quantised(at + 1, q), at + 1)]
      case Own(_, _) => before
      case Ask(now) => Unseen(before, now)
      case Fetch(upto, now) => BroughtIn(before, upto, now)
      case Launch => AtOnce(before)
  }

  /** When the last write of the CPU was made, and from when on the signal processor can still ask. */
  function LastMade(h: seq<Step>): nat
    decreases |h|
  {
    if h == [] then 0
    else if h[|h| - 1].Write? then h[|h| - 1].at + 1
    else LastMade(h[..|h| - 1])
  }

  function Floor(h: seq<Step>): nat
    decreases |h|
  {
    if h == [] then 0
    else
      var n := |h| - 1;
      match h[n]
      case Ask(now) => now
      case Fetch(_, now) => now
      case Launch => if Floor(h[..n]) < LastMade(h[..n]) then LastMade(h[..n]) else Floor(h[..n])
      case _ => Floor(h[..n])
  }

  /** Each side's clock goes forward, a task does not ask before its launch, and no write finds 32 waiting. */
  ghost predicate Orderly(q: nat, start: Sig, h: seq<Step>)
    requires q > 0
    decreases |h|
  {
    h == [] ||
    var n := |h| - 1;
    && Orderly(q, start, h[..n])
    && (h[n].Write? ==> h[n].at + 1 >= LastMade(h[..n]) && |Waiting(q, start, h[..n])| < 32)
    && (h[n].Ask? || h[n].Fetch? ==> h[n].now >= Floor(h[..n]))
  }

  /** The writes of the CPU that are stamped by t. */
  function SeenBy(q: nat, h: seq<Step>, t: nat): seq<Cmd>
    requires q > 0
    decreases |h|
  {
    if h == [] then []
    else
      var n := |h| - 1;
      SeenBy(q, h[..n], t) +
      if h[n].Write? && Quantised(h[n].at + 1, q) <= t then [Cmd(h[n].clear, h[n].set_)] else []
  }

  /** With the CPU alone writing and nothing fetched, that is the register with exactly those writes. */
  lemma {:induction false} SeesIsFold(q: nat, start: Sig, h: seq<Step>, t: nat)
    requires q > 0 && Orderly(q, start, h) && forall i | 0 <= i < |h| :: h[i].Write? || h[i].Ask?
    ensures Sees(q, start, h, t) == Fold(start, SeenBy(q, h, t))
    ensures Quantised(LastMade(h), q) <= t ==> Live(start, h) == Fold(start, SeenBy(q, h, t))
    decreases |h|
  {
    hide Apply, Waiting, Quantised;
    if h != [] {
      var n := |h| - 1;
      SeesIsFold(q, start, h[..n], t);
      if h[n].Write? {
        QuantisedRises(LastMade(h[..n]), h[n].at + 1, q);
        FoldMore(start, SeenBy(q, h[..n], t), Cmd(h[n].clear, h[n].set_));
      } else {
        assert SeenBy(q, h, t) == SeenBy(q, h[..n], t);
      }
    }
  }

  lemma FoldMore(start: Sig, cmds: seq<Cmd>, c: Cmd)
    ensures Fold(start, cmds + [c]) == Apply(Fold(start, cmds), c.clear, c.set_) && cmds + [] == cmds
  {
    hide Apply;
    assert (cmds + [c])[..|cmds|] == cmds;
  }

  // ---- signals one by one ----

  ghost predicate Off(v: Sig, m: Sig) { v & m == 0 }

  ghost predicate On(v: Sig, m: Sig) { v & m == m }

  /** A step clears, or sets, all of the signals m; or does not touch one of them so. */
  ghost predicate Clears(e: Step, m: Sig)
    requires e.Write? || e.Own?
  {
    m & (e.clear & !e.set_) == m
  }

  ghost predicate Sets(e: Step, m: Sig)
    requires e.Write? || e.Own?
  {
    m & (e.set_ & !e.clear) == m
  }

  ghost predicate Spares(clear: Sig, set_: Sig, m: Sig) { m & (clear & !set_) == 0 }

  /** No step after the k-th sets one of the signals m, or none clears one. */
  ghost predicate NoneSets(h: seq<Step>, k: nat, m: Sig) {
    forall j | k < j < |h| && (h[j].Write? || h[j].Own?) :: Spares(h[j].set_, h[j].clear, m)
  }

  ghost predicate NoneClears(h: seq<Step>, k: nat, m: Sig) {
    forall j | k < j < |h| && (h[j].Write? || h[j].Own?) :: Spares(h[j].clear, h[j].set_, m)
  }

  /** Signals that a write of the CPU clears are seen clear from its instant on, rounded up to the quantum, until some
      write sets them again. */
  lemma {:induction false} ClearStays(q: nat, start: Sig, h: seq<Step>, k: nat, m: Sig, t: nat, u: int)
    requires q > 0 && k < |h| && h[k].Write? && Quantised(h[k].at + 1, q) <= t && Clears(h[k], m) && NoneSets(h, k, m)
    ensures Off(Live(start, h), m) && Off(SeesWith(q, start, h, t, u), m)
    decreases |h|
  {
    hide Apply, Quantised, Mixed, Changed, Off, Spares, Clears;
    var n := |h| - 1;
    var f := h[..n];
    if k == n {
      AppliedClear(Live(start, f), h[n], m);
    } else {
      if h[n].Write? || h[n].Own? { StaysClear(Live(start, f), h[n].clear, h[n].set_, m); }
      var w := if h[n].Fetch? then Later(u, h[n].upto) else u;
      ClearStays(q, start, f, k, m, t, w);
      MixedClear(Changed(Live(start, f), Live(start, h)), Live(start, h), SeesWith(q, start, f, t, w), m);
    }
  }

  /** And the other way round. */
  lemma {:induction false} SetStays(q: nat, start: Sig, h: seq<Step>, k: nat, m: Sig, t: nat, u: int)
    requires q > 0 && k < |h| && h[k].Write? && Quantised(h[k].at + 1, q) <= t && Sets(h[k], m) && NoneClears(h, k, m)
    ensures On(Live(start, h), m) && On(SeesWith(q, start, h, t, u), m)
    decreases |h|
  {
    hide Apply, Quantised, Mixed, Changed, On, Spares, Sets;
    var n := |h| - 1;
    var f := h[..n];
    if k == n {
      AppliedSet(Live(start, f), h[n], m);
    } else {
      if h[n].Write? || h[n].Own? { StaysSet(Live(start, f), h[n].clear, h[n].set_, m); }
      var w := if h[n].Fetch? then Later(u, h[n].upto) else u;
      SetStays(q, start, f, k, m, t, w);
      MixedSet(Changed(Live(start, f), Live(start, h)), Live(start, h), SeesWith(q, start, f, t, w), m);
    }
  }

  lemma AppliedClear(v: Sig, e: Step, m: Sig)
    requires (e.Write? || e.Own?) && Clears(e, m)
    ensures Off(Apply(v, e.clear, e.set_), m)
  {
  }

  lemma AppliedSet(v: Sig, e: Step, m: Sig)
    requires (e.Write? || e.Own?) && Sets(e, m)
    ensures On(Apply(v, e.clear, e.set_), m)
  {
  }

  lemma StaysClear(v: Sig, clear: Sig, set_: Sig, m: Sig)
    ensures Off(v, m) && Spares(set_, clear, m) ==> Off(Apply(v, clear, set_), m)
  {
  }

  lemma StaysSet(v: Sig, clear: Sig, set_: Sig, m: Sig)
    ensures On(v, m) && Spares(clear, set_, m) ==> On(Apply(v, clear, set_), m)
  {
  }

  lemma MixedClear(bits: Sig, from: Sig, others: Sig, m: Sig)
    ensures Off(from, m) && Off(others, m) ==> Off(Mixed(bits, from, others), m)
  {
  }

  lemma MixedSet(bits: Sig, from: Sig, others: Sig, m: Sig)
    ensures On(from, m) && On(others, m) ==> On(Mixed(bits, from, others), m)
  {
  }

  /** The reads of a run obey: what a write clears, or sets, a later read from the write's instant on finds so, unless a
      write in between has done otherwise. */
  ghost predicate Obeyed(q: nat, steps: seq<Step>, answers: seq<Sig>)
    requires q > 0 && |answers| == |steps|
  {
    forall k, i: nat, m: Sig | 0 <= k < i < |steps| :: ObeyedAt(q, steps, answers, k, i, m)
  }

  ghost predicate ObeyedAt(q: nat, steps: seq<Step>, answers: seq<Sig>, k: nat, i: nat, m: Sig)
    requires q > 0 && |answers| == |steps| && k < i < |steps|
  {
    steps[k].Write? && steps[i].Ask? && Quantised(steps[k].at + 1, q) <= steps[i].now ==>
      && (Clears(steps[k], m) && NoneSets(steps[..i], k, m) ==> Off(answers[i], m))
      && (Sets(steps[k], m) && NoneClears(steps[..i], k, m) ==> On(answers[i], m))
  }

  lemma AnswersObey(q: nat, start: Sig, steps: seq<Step>, answers: seq<Sig>)
    requires q > 0 && |answers| == |steps| && Answered(q, start, steps, answers)
    ensures Obeyed(q, steps, answers)
  {
    hide NoneSets, NoneClears, Quantised, SeesWith, Clears, Sets, Off, On;
    forall k, i: nat, m: Sig | 0 <= k < i < |steps| ensures ObeyedAt(q, steps, answers, k, i, m) {
      if steps[k].Write? && steps[i].Ask? && Quantised(steps[k].at + 1, q) <= steps[i].now {
        if Clears(steps[k], m) && NoneSets(steps[..i], k, m) { ClearStays(q, start, steps[..i], k, m, steps[i].now, -1); }
        if Sets(steps[k], m) && NoneClears(steps[..i], k, m) { SetStays(q, start, steps[..i], k, m, steps[i].now, -1); }
      }
    }
  }

  // ---- what the ring shows ----

  /** How many at the front are to be seen at instant t by one who has fetched what was made by u. */
  function Shown(ws: seq<Wr>, t: nat, u: int): (n: nat)
    ensures n <= |ws| && (n < |ws| ==> ws[n].stamp > t && ws[n].raw > u)
    ensures forall i | 0 <= i < n :: ws[i].stamp <= t || ws[i].raw <= u
  {
    if ws == [] || (ws[0].stamp > t && ws[0].raw > u) then 0 else 1 + Shown(ws[1..], t, u)
  }

  lemma ShownIs(ws: seq<Wr>, t: nat, u: int, n: nat)
    requires n <= |ws| && (n < |ws| ==> ws[n].stamp > t && ws[n].raw > u)
    requires forall i | 0 <= i < n :: ws[i].stamp <= t || ws[i].raw <= u
    ensures Shown(ws, t, u) == n
  {
    hide Shown;
  }

  function SeenWith(v: Sig, ws: seq<Wr>, t: nat, u: int): Sig {
    Undo(v, ws[Shown(ws, t, u)..])
  }

  lemma WithNothing(v: Sig, ws: seq<Wr>, t: nat)
    ensures SeenWith(v, ws, t, -1) == SeenAt(v, ws, t)
  {
    hide Past, Shown, Undo;
    ShownIs(ws, t, -1, Past(ws, t));
  }

  /** A write of the CPU. */
  lemma WriteShows(v: Sig, ws: seq<Wr>, now: Sig, w: Wr, t: nat, u: int)
    requires w == Record(w.stamp, w.raw, v, now, w.late)
    requires forall i | 0 <= i < |ws| :: ws[i].stamp <= w.stamp && ws[i].raw <= w.raw
    ensures SeenWith(now, ws + [w], t, u) == if t < w.stamp && u < w.raw then SeenWith(v, ws, t, u) else now
  {
    var all, n := ws + [w], Shown(ws, t, u);
    RecordTurnsBack(w.stamp, w.raw, v, now, w.late);
    hide Shown, TurnBack, Record;
    if t < w.stamp && u < w.raw {
      ShownIs(all, t, u, n);
      assert all[n..] == ws[n..] + [w] && (ws[n..] + [w])[..|ws| - n] == ws[n..];
    } else {
      ShownIs(all, t, u, |all|);
      assert all[|all|..] == [];
    }
  }

  lemma AllShow(v: Sig, ws: seq<Wr>, t: nat, u: int)
    requires forall i | 0 <= i < |ws| :: ws[i].stamp <= t || ws[i].raw <= u
    ensures SeenWith(v, ws, t, u) == v
  {
    hide Shown, TurnBack;
    ShownIs(ws, t, u, |ws|);
    assert ws[|ws|..] == [];
  }

  /** A write of the signal processor. */
  lemma FlipShows(v: Sig, now: Sig, ws: seq<Wr>, t: nat, u: int)
    ensures SeenWith(now, AllWithout(ws, Changed(v, now)), t, u) == Mixed(Changed(v, now), now, SeenWith(v, ws, t, u))
  {
    var bits := v ^ now;
    assert now & !bits == v & !bits;
    var r, n := AllWithout(ws, bits), Shown(ws, t, u);
    hide Shown;
    ShownIs(r, t, u, n);
    assert r[n..] == AllWithout(ws[n..], bits);
    UndoWithout(v, now, ws[n..], bits);
  }

  /** What has left the ring is to be seen anyway. */
  lemma AskShows(v: Sig, ws: seq<Wr>, now: nat, t: nat, u: int)
    requires now <= t
    ensures SeenWith(v, ws[Past(ws, now)..], t, u) == SeenWith(v, ws, t, u)
  {
    hide Undo, Past, Shown;
    var n := Past(ws, now);
    var m := Shown(ws[n..], t, u);
    ShownIs(ws, t, u, n + m);
    assert ws[n..][m..] == ws[n + m..];
  }

  /** A fetch brings forward exactly what was made by then. */
  lemma FetchShows(v: Sig, ws: seq<Wr>, asked: nat, upto: nat, now: nat, t: nat, u: int)
    requires InOrder(ws, asked) && now <= t
    ensures SeenWith(v, Forward(ws, upto, now), t, u) == SeenWith(v, ws, t, Later(u, upto))
  {
    hide Undo, Shown, Forward;
    var n := Shown(ws, t, Later(u, upto));
    var r := Forward(ws, upto, now);
    ForwardAt(ws, asked, upto, now);
    ShownIs(r, t, u, n);
    assert r[n..] == ws[n..];
  }

  lemma {:induction false} ForwardAt(ws: seq<Wr>, asked: nat, upto: nat, now: nat)
    requires InOrder(ws, asked)
    ensures forall i | 0 <= i < |ws| ::
              Forward(ws, upto, now)[i] ==
              if ws[i].raw <= upto then ws[i].(stamp := Earlier(ws[i].raw, now), late := false) else ws[i]
    decreases |ws|
  {
    if ws != [] && ws[0].raw <= upto { ForwardAt(ws[1..], asked, upto, now); }
  }

  lemma {:induction false} BroughtIs(ws: seq<Wr>, upto: nat, now: nat)
    ensures Dates(Forward(ws, upto, now)) == BroughtIn(Dates(ws), upto, now)
    decreases |ws|
  {
    if ws != [] && ws[0].raw <= upto {
      BroughtIs(ws[1..], upto, now);
      assert Dates(ws)[1..] == Dates(ws[1..]);
    }
  }

  // ---- a step at a time ----

  /** Where a run stands: what would be seen from now on, and what waits, are as described. */
  ghost predicate StandsAt(q: nat, reg: Sig, ws: seq<Wr>, asked: nat, start: Sig, h: seq<Step>)
    requires q > 0
  {
    && reg == Live(start, h) && Dates(ws) == Waiting(q, start, h) && asked <= Floor(h)
    && forall t: nat, u: int | Floor(h) <= t :: SeenWith(reg, ws, t, u) == SeesWith(q, start, h, t, u)
  }

  ghost predicate Stands(s: Signals, start: Sig, h: seq<Step>)
    requires s.Valid()
    reads s, s.ring
  {
    StandsAt(s.quantum, s.reg, s.Ws(), s.asked, start, h)
  }

  /** One more step of the history. */
  lemma Further(h: seq<Step>, e: Step)
    ensures (h + [e])[..|h|] == h && (h + [e])[|h|] == e
  {
  }

  lemma AfterWriting(q: nat, v: Sig, ws: seq<Wr>, now: Sig, asked: nat, start: Sig, h: seq<Step>, e: Step)
    requires q > 0 && StandsAt(q, v, ws, asked, start, h) && e.Write? && now == Apply(v, e.clear, e.set_)
    requires forall i | 0 <= i < |ws| :: ws[i].stamp <= Quantised(e.at + 1, q) && ws[i].raw <= e.at + 1
    ensures StandsAt(q, now, ws + Kept(q, v, now, e.at, e.late), asked, start, h + [e])
  {
    hide SeenWith, Apply, Quantised, Dates;
    Further(h, e);
    var more, stamp := ws + Kept(q, v, now, e.at, e.late), Quantised(e.at + 1, q);
    if now == v && !e.late {
      assert more == ws && Dates(ws) + [] == Dates(ws);
    } else {
      OneMoreDate(ws, Record(stamp, e.at + 1, v, now, e.late));
    }
    forall t: nat, u: int | Floor(h) <= t
      ensures SeenWith(now, more, t, u) == if t < stamp && u < e.at + 1 then SeenWith(v, ws, t, u) else now
    {
      if now == v && !e.late {
        if t >= stamp || u >= e.at + 1 { AllShow(v, ws, t, u); }
      } else {
        WriteShows(v, ws, now, Record(stamp, e.at + 1, v, now, e.late), t, u);
      }
    }
  }

  lemma AfterOwn(q: nat, v: Sig, ws: seq<Wr>, now: Sig, asked: nat, start: Sig, h: seq<Step>, e: Step)
    requires q > 0 && StandsAt(q, v, ws, asked, start, h) && e.Own? && now == Apply(v, e.clear, e.set_)
    ensures StandsAt(q, now, AllWithout(ws, Changed(v, now)), asked, start, h + [e])
  {
    hide SeenWith, Apply, Dates, Mixed, Changed, AllWithout;
    Further(h, e);
    SameDates(ws, Changed(v, now));
    forall t: nat, u: int | Floor(h) <= t
      ensures SeenWith(now, AllWithout(ws, Changed(v, now)), t, u) == Mixed(Changed(v, now), now, SeenWith(v, ws, t, u))
    {
      FlipShows(v, now, ws, t, u);
    }
  }

  lemma AfterAsk(q: nat, v: Sig, ws: seq<Wr>, asked: nat, start: Sig, h: seq<Step>, e: Step)
    requires q > 0 && StandsAt(q, v, ws, asked, start, h) && e.Ask? && Floor(h) <= e.now
    ensures StandsAt(q, v, ws[Past(ws, e.now)..], e.now, start, h + [e])
    ensures SeenAt(v, ws, e.now) == Sees(q, start, h, e.now)
  {
    hide SeenWith, SeenAt, Dates, Past;
    Further(h, e);
    UnseenIsPast(ws, e.now);
    WithNothing(v, ws, e.now);
    forall t: nat, u: int | e.now <= t
      ensures SeenWith(v, ws[Past(ws, e.now)..], t, u) == SeenWith(v, ws, t, u)
    {
      AskShows(v, ws, e.now, t, u);
    }
  }

  lemma AfterFetch(q: nat, v: Sig, ws: seq<Wr>, asked: nat, start: Sig, h: seq<Step>, e: Step)
    requires q > 0 && StandsAt(q, v, ws, asked, start, h) && e.Fetch? && Floor(h) <= e.now && InOrder(ws, asked)
    ensures StandsAt(q, v, Forward(ws, e.upto, e.now), e.now, start, h + [e])
  {
    hide SeenWith, Dates, Forward, InOrder, Later;
    Further(h, e);
    BroughtIs(ws, e.upto, e.now);
    forall t: nat, u: int | e.now <= t
      ensures SeenWith(v, Forward(ws, e.upto, e.now), t, u) == SeenWith(v, ws, t, Later(u, e.upto))
    {
      FetchShows(v, ws, asked, e.upto, e.now, t, u);
    }
  }

  lemma AfterLaunch(q: nat, v: Sig, ws: seq<Wr>, asked: nat, start: Sig, h: seq<Step>, e: Step)
    requires q > 0 && StandsAt(q, v, ws, asked, start, h) && e.Launch? && Orderly(q, start, h)
    ensures StandsAt(q, v, AtRaw(ws), asked, start, h + [e])
  {
    hide SeenWith, Orderly;
    Further(h, e);
    WaitingWasMade(q, start, h);
    forall i | 0 <= i < |ws| ensures ws[i].raw <= LastMade(h) { assert Dates(ws)[i].raw == ws[i].raw; }
    forall t: nat, u: int | LastMade(h) <= t ensures SeenWith(v, AtRaw(ws), t, u) == v { AllShow(v, AtRaw(ws), t, u); }
    assert Dates(AtRaw(ws)) == AtOnce(Dates(ws));
  }

  /** Nothing waits that was made later than the last write. */
  lemma {:induction false} WaitingWasMade(q: nat, start: Sig, h: seq<Step>)
    requires q > 0 && Orderly(q, start, h)
    ensures forall i | 0 <= i < |Waiting(q, start, h)| :: Waiting(q, start, h)[i].raw <= LastMade(h)
    decreases |h|
  {
    hide Quantised, Live, BroughtIn, Unseen;
    if h != [] {
      var n := |h| - 1;
      WaitingWasMade(q, start, h[..n]);
      if h[n].Ask? { StillWaiting(Waiting(q, start, h[..n]), h[n].now); }
      if h[n].Fetch? { SameMade(Waiting(q, start, h[..n]), h[n].upto, h[n].now); }
    }
  }

  lemma {:induction false} StillWaiting(ds: seq<Date>, now: nat)
    ensures |Unseen(ds, now)| <= |ds| && Unseen(ds, now) == ds[|ds| - |Unseen(ds, now)|..]
    decreases |ds|
  {
    if ds != [] && ds[0].stamp <= now { StillWaiting(ds[1..], now); }
  }

  lemma {:induction false} SameMade(ds: seq<Date>, upto: nat, now: nat)
    ensures |BroughtIn(ds, upto, now)| == |ds| && forall i | 0 <= i < |ds| :: BroughtIn(ds, upto, now)[i].raw == ds[i].raw
    decreases |ds|
  {
    if ds != [] && ds[0].raw <= upto { SameMade(ds[1..], upto, now); }
  }

  method DoWrite(s: Signals, ghost start: Sig, ghost h: seq<Step>, e: Step)
    requires s.Valid() && Stands(s, start, h) && e.Write? && Orderly(s.quantum, start, h + [e])
    modifies s, s.ring
    ensures s.Valid() && Stands(s, start, h + [e])
  {
    hide Signals.Valid, Signals.Ws, Apply, SeenAt, SeenFrom, StandsAt, Kept;
    WellMade(s);
    RoomLeft(s, start, h, e);
    ghost var ws, v, asked := s.Ws(), s.reg, s.asked;
    s.CpuWrite(e.clear, e.set_, e.at, e.late);
    AfterWriting(s.quantum, v, ws, s.reg, asked, start, h, e);
  }

  lemma RoomLeft(s: Signals, start: Sig, h: seq<Step>, e: Step)
    requires s.Valid() && Stands(s, start, h) && e.Write? && Orderly(s.quantum, start, h + [e])
    ensures s.count < RING
    ensures forall i | 0 <= i < s.count :: s.Ws()[i].raw <= e.at + 1 && s.Ws()[i].stamp <= Quantised(e.at + 1, s.quantum)
  {
    Further(h, e);
    WaitingWasMade(s.quantum, start, h);
    hide Signals.Ws, Fold, Chained, SeenWith, SeesWith, Live, Quantised;
    forall i | 0 <= i < s.count
      ensures s.Ws()[i].raw <= e.at + 1 && s.Ws()[i].stamp <= Quantised(e.at + 1, s.quantum)
    {
      assert Dates(s.Ws())[i].raw == s.Ws()[i].raw;
      QuantisedRises(s.Ws()[i].raw, e.at + 1, s.quantum);
    }
  }

  method DoOwn(s: Signals, ghost start: Sig, ghost h: seq<Step>, e: Step)
    requires s.Valid() && Stands(s, start, h) && e.Own?
    modifies s, s.ring
    ensures s.Valid() && Stands(s, start, h + [e])
  {
    hide Signals.Valid, Signals.Ws, Apply, SeenAt, Flipped, StandsAt;
    WellMade(s);
    ghost var ws, v := s.Ws(), s.reg;
    s.RspWrite(e.clear, e.set_);
    AfterOwn(s.quantum, v, ws, s.reg, s.asked, start, h, e);
  }

  method DoAsk(s: Signals, ghost start: Sig, ghost h: seq<Step>, e: Step) returns (v: Sig)
    requires s.Valid() && Stands(s, start, h) && e.Ask? && Floor(h) <= e.now
    modifies s, s.ring
    ensures s.Valid() && Stands(s, start, h + [e]) && v == Sees(s.quantum, start, h, e.now)
  {
    AskedBefore(s, start, h);
    hide Signals.Valid, Signals.Ws, SeenAt, StandsAt, Past;
    WellMade(s);
    AfterAsk(s.quantum, s.reg, s.Ws(), s.asked, start, h, e);
    v := s.StatusForRsp(e.now);
  }

  method DoFetch(s: Signals, ghost start: Sig, ghost h: seq<Step>, e: Step)
    requires s.Valid() && Stands(s, start, h) && e.Fetch? && Floor(h) <= e.now
    modifies s, s.ring
    ensures s.Valid() && Stands(s, start, h + [e])
  {
    AskedBefore(s, start, h);
    hide Signals.Valid, Signals.Ws, StandsAt, Forward, SpSignals.Brought, Made, InOrder;
    WellMade(s);
    AfterFetch(s.quantum, s.reg, s.Ws(), s.asked, start, h, e);
    s.UpTo(e.upto, e.now);
  }

  lemma WellMade(s: Signals)
    requires s.Valid()
    ensures s.ring.Length == RING && s.quantum > 0
  {
  }

  lemma AskedBefore(s: Signals, start: Sig, h: seq<Step>)
    requires s.Valid() && Stands(s, start, h)
    ensures s.asked <= Floor(h) && InOrder(s.Ws(), s.asked)
  {
  }

  method DoLaunch(s: Signals, ghost start: Sig, ghost h: seq<Step>, e: Step)
    requires s.Valid() && Stands(s, start, h) && e.Launch? && Orderly(s.quantum, start, h)
    modifies s, s.ring
    ensures s.Valid() && Stands(s, start, h + [e])
  {
    hide Signals.Valid, Signals.Ws, SeenAt, StandsAt, AtRaw;
    WellMade(s);
    AfterLaunch(s.quantum, s.reg, s.Ws(), s.asked, start, h, e);
    s.AtKick();
  }

  method DoStep(s: Signals, ghost start: Sig, ghost h: seq<Step>, e: Step) returns (v: Sig)
    requires s.Valid() && Stands(s, start, h) && Orderly(s.quantum, start, h) && Orderly(s.quantum, start, h + [e])
    modifies s, s.ring
    ensures s.Valid() && Stands(s, start, h + [e])
    ensures e.Ask? ==> v == Sees(s.quantum, start, h, e.now)
  {
    Further(h, e);
    assert e.Ask? || e.Fetch? ==> Floor(h) <= e.now;
    hide Signals.Valid, Stands, Sees, Orderly, Floor;
    v := 0;
    match e {
      case Write(_, _, _, _) => DoWrite(s, start, h, e);
      case Own(_, _) => DoOwn(s, start, h, e);
      case Ask(_) => v := DoAsk(s, start, h, e);
      case Fetch(_, _) => DoFetch(s, start, h, e);
      case Launch => DoLaunch(s, start, h, e);
    }
  }

  /** Any orderly run of writes, reads, fetches and launches: what the signal processor reads at each of its instants is
      the register as it is to see it then. */
  method Run(s: Signals, steps: seq<Step>) returns (answers: seq<Sig>)
    requires s.Valid() && s.count == 0 && s.asked == 0 && Orderly(s.quantum, s.reg, steps)
    modifies s, s.ring
    ensures s.Valid() && |answers| == |steps| && Stands(s, old(s.reg), steps)
    ensures Answered(s.quantum, old(s.reg), steps, answers) && Obeyed(s.quantum, steps, answers)
  {
    ghost var start := s.reg;
    answers := [];
    AtFirst(s);
    hide Signals.Valid, Stands, Sees, Orderly, Floor, Answered;
    NoneAnswered(s.quantum, start, steps);
    for i := 0 to |steps|
      invariant s.Valid() && |answers| == i && Stands(s, start, steps[..i]) && Answered(s.quantum, start, steps, answers)
    {
      assert steps[..i + 1] == steps[..i] + [steps[i]];
      OrderlySoFar(s.quantum, start, steps, i + 1);
      OrderlySoFar(s.quantum, start, steps, i);
      var v := DoStep(s, start, steps[..i], steps[i]);
      OneMoreAnswer(s.quantum, start, steps, answers, v);
      answers := answers + [v];
    }
    assert steps[..|steps|] == steps;
    AnswersObey(s.quantum, start, steps, answers);
  }

  /** The reads so far gave what was to be seen. */
  ghost predicate Answered(q: nat, start: Sig, steps: seq<Step>, answers: seq<Sig>)
    requires q > 0 && |answers| <= |steps|
  {
    forall i | 0 <= i < |answers| && steps[i].Ask? :: answers[i] == Sees(q, start, steps[..i], steps[i].now)
  }

  lemma NoneAnswered(q: nat, start: Sig, steps: seq<Step>)
    requires q > 0
    ensures Answered(q, start, steps, [])
  {
  }

  lemma OneMoreAnswer(q: nat, start: Sig, steps: seq<Step>, answers: seq<Sig>, v: Sig)
    requires q > 0 && |answers| < |steps| && Answered(q, start, steps, answers)
    requires var e := steps[|answers|]; e.Ask? ==> v == Sees(q, start, steps[..|answers|], e.now)
    ensures Answered(q, start, steps, answers + [v])
  {
    hide Sees;
  }

  lemma {:induction false} OrderlySoFar(q: nat, start: Sig, h: seq<Step>, k: nat)
    requires q > 0 && k <= |h| && Orderly(q, start, h)
    ensures Orderly(q, start, h[..k])
    decreases |h|
  {
    hide Waiting;
    var n := |h| - 1;
    if k == |h| {
      assert h[..k] == h;
    } else {
      assert h[..n][..k] == h[..k];
      OrderlySoFar(q, start, h[..n], k);
    }
  }

  lemma AtFirst(s: Signals)
    requires s.Valid() && s.count == 0 && s.asked == 0
    ensures Stands(s, s.reg, [])
  {
    hide Fold, Chained;
    assert s.Ws() == [];
  }

  // ---- the host does not show ----

  /** What changes the register, in order; what the signal processor does, in order; and what belongs to both. */
  predicate Registered(e: Step) { e.Write? || e.Own? || e.Launch? }

  predicate Done(e: Step) { !e.Write? }

  predicate Shared(e: Step) { e.Own? || e.Launch? }

  function Only(p: Step -> bool, h: seq<Step>): seq<Step>
    decreases |h|
  {
    if h == [] then []
    else Only(p, h[..|h| - 1]) + if p(h[|h| - 1]) then [h[|h| - 1]] else []
  }

  /** The latest instant up to which something has been fetched. */
  function Fetched(h: seq<Step>): int
    decreases |h|
  {
    if h == [] then -1
    else if h[|h| - 1].Fetch? then Later(Fetched(h[..|h| - 1]), h[|h| - 1].upto)
    else Fetched(h[..|h| - 1])
  }

  /** The signal processor reads only when the CPU's clock has reached the last edge of the quantum, and fetches only when
      it has reached the instant up to which it fetches: what the CPU writes afterwards, it writes from there on. */
  ghost predicate Met(q: nat, h: seq<Step>)
    requires q > 0
  {
    forall i, j | 0 <= i < j < |h| && h[j].Write? ::
      (h[i].Ask? ==> h[i].now / q * q <= h[j].at) && (h[i].Fetch? ==> h[i].upto <= h[j].at)
  }

  /** A write after the edge is not to be seen yet. */
  lemma NotYet(q: nat, now: nat, at: nat)
    requires q > 0 && now / q * q <= at
    ensures now < Quantised(at + 1, q)
  {
    var k := now / q;
    Divide(now, q);
    Reaches(at + q, q, k + 1);
    Distribute(q, k, 1);
    Grows(q, k + 1, (at + q) / q);
  }

  lemma {:induction false} FetchedBefore(q: nat, h: seq<Step>, i: nat, at: nat)
    requires q > 0 && i <= |h| && forall k | 0 <= k < i && h[k].Fetch? :: h[k].upto <= at
    ensures Fetched(h[..i]) <= at
    decreases i
  {
    if i > 0 {
      FetchedBefore(q, h, i - 1, at);
      assert h[..i][..i - 1] == h[..i - 1];
    }
  }

  lemma {:induction false} LiveIsRegister(start: Sig, h: seq<Step>)
    ensures Live(start, h) == Live(start, Only(Registered, h))
    decreases |h|
  {
    hide Apply;
    if h != [] {
      var f := Only(Registered, h[..|h| - 1]);
      LiveIsRegister(start, h[..|h| - 1]);
      Further(f, h[|h| - 1]);
      assert f + [] == f;
    }
  }

  /** Where reads and fetches stand among the writes does not matter. */
  lemma {:induction false} OnlyRegister(q: nat, start: Sig, h: seq<Step>, t: nat, u: int)
    requires q > 0 && Met(q, h)
    ensures SeesWith(q, start, h, t, u) == SeesWith(q, start, Only(Registered, h), t, Later(u, Fetched(h)))
    decreases |h|
  {
    if h != [] {
      var n := |h| - 1;
      var f := h[..n];
      OnlyRegister(q, start, f, t, if h[n].Fetch? then Later(u, h[n].upto) else u);
      LiveIsRegister(start, f);
      LiveIsRegister(start, h);
      Further(Only(Registered, f), h[n]);
      if h[n].Write? { FetchedBefore(q, h, n, h[n].at); }
      hide Apply, Quantised, Mixed, Changed, Live, Met;
      assert Only(Registered, f) + [] == Only(Registered, f);
    }
  }

  /** Writes that are not to be seen yet make no difference. */
  lemma {:induction false} NoneYet(q: nat, start: Sig, h: seq<Step>, ws: seq<Step>, t: nat, u: int)
    requires q > 0
    requires forall i | 0 <= i < |ws| :: ws[i].Write? && t < Quantised(ws[i].at + 1, q) && u < ws[i].at + 1
    ensures SeesWith(q, start, h + ws, t, u) == SeesWith(q, start, h, t, u)
    decreases |ws|
  {
    hide Quantised, Live;
    if ws == [] {
      assert h + ws == h;
    } else {
      var n := |ws| - 1;
      NoneYet(q, start, h, ws[..n], t, u);
      assert h + ws == (h + ws[..n]) + [ws[n]];
      Further(h + ws[..n], ws[n]);
    }
  }

  lemma {:induction false} OnlyFront(p: Step -> bool, h: seq<Step>, i: nat)
    requires i <= |h|
    ensures Only(p, h[..i]) <= Only(p, h)
    decreases |h|
  {
    if i == |h| {
      assert h[..i] == h;
    } else {
      OnlyFront(p, h[..|h| - 1], i);
      assert h[..|h| - 1][..i] == h[..i];
    }
  }

  /** What comes later in a part comes later in the whole. */
  lemma {:induction false} OnlyRest(p: Step -> bool, h: seq<Step>, i: nat, k: nat) returns (m: nat)
    requires i < |h| && |Only(p, h[..i])| <= k < |Only(p, h)|
    ensures i <= m < |h| && h[m] == Only(p, h)[k]
    decreases |h|
  {
    m := |h| - 1;
    if i < m && k < |Only(p, h[..m])| {
      assert h[..m][..i] == h[..i];
      m := OnlyRest(p, h[..m], i, k);
    }
  }

  lemma {:induction false} OnlyTwice(p: Step -> bool, r: Step -> bool, h: seq<Step>)
    requires forall e :: p(e) ==> r(e)
    ensures Only(p, Only(r, h)) == Only(p, h)
    decreases |h|
  {
    if h != [] {
      var n := |h| - 1;
      OnlyTwice(p, r, h[..n]);
      var f := Only(r, h[..n]);
      Further(f, h[n]);
      assert f + [] == f && Only(p, h[..n]) + [] == Only(p, h[..n]);
    }
  }

  lemma {:induction false} OnlyJoin(p: Step -> bool, a: seq<Step>, b: seq<Step>)
    ensures Only(p, a + b) == Only(p, a) + Only(p, b)
    decreases |b|
  {
    if b == [] {
      assert a + b == a;
    } else {
      var n := |b| - 1;
      OnlyJoin(p, a, b[..n]);
      assert (a + b)[..|a| + n] == a + b[..n] && (a + b)[|a| + n] == b[n];
    }
  }

  lemma {:induction false} OnlyNone(p: Step -> bool, h: seq<Step>)
    requires Only(p, h) == []
    ensures forall i | 0 <= i < |h| :: !p(h[i])
    decreases |h|
  {
    if h != [] { OnlyNone(p, h[..|h| - 1]); }
  }

  lemma {:induction false} FetchedIsDone(h: seq<Step>)
    ensures Fetched(Only(Done, h)) == Fetched(h)
    decreases |h|
  {
    if h != [] {
      var n := |h| - 1;
      FetchedIsDone(h[..n]);
      Further(Only(Done, h[..n]), h[n]);
      assert Only(Done, h[..n]) + [] == Only(Done, h[..n]);
    }
  }

  /** Two runs with the same changes of the register and the same signal processor, interleaved by the host in any two
      ways that keep the rendezvous: a read gives the same in both. */
  lemma InterleavingsAgree(q: nat, start: Sig, h: seq<Step>, g: seq<Step>, i: nat, j: nat)
    requires q > 0 && Met(q, h) && Met(q, g) && Only(Registered, h) == Only(Registered, g)
    requires i < |h| && j < |g| && h[i].Ask? && h[i] == g[j] && Only(Done, h[..i]) == Only(Done, g[..j])
    ensures Sees(q, start, h[..i], h[i].now) == Sees(q, start, g[..j], h[i].now)
  {
    if |Only(Registered, h[..i])| <= |Only(Registered, g[..j])| {
      ReadsAgree(q, start, h, g, i, j);
    } else {
      ReadsAgree(q, start, g, h, j, i);
    }
  }

  lemma ReadsAgree(q: nat, start: Sig, h: seq<Step>, g: seq<Step>, i: nat, j: nat)
    requires q > 0 && Met(q, h) && Met(q, g) && Only(Registered, h) == Only(Registered, g)
    requires i < |h| && j < |g| && h[i].Ask? && h[i] == g[j] && Only(Done, h[..i]) == Only(Done, g[..j])
    requires |Only(Registered, h[..i])| <= |Only(Registered, g[..j])|
    ensures Sees(q, start, h[..i], h[i].now) == Sees(q, start, g[..j], h[i].now)
  {
    hide SeesWith, Only, Fetched, Met;
    var now, a := h[i].now, Only(Registered, h[..i]);
    FetchedIsDone(h[..i]);
    FetchedIsDone(g[..j]);
    MetFront(q, h, i);
    MetFront(q, g, j);
    OnlyRegister(q, start, h[..i], now, -1);
    OnlyRegister(q, start, g[..j], now, -1);
    var ws := BetweenIsLater(q, h, g, i, j);
    NoneYet(q, start, a, ws, now, Later(-1, Fetched(h[..i])));
  }

  lemma MetFront(q: nat, h: seq<Step>, i: nat)
    requires q > 0 && Met(q, h) && i <= |h|
    ensures Met(q, h[..i])
  {
  }

  /** What one run has written to the register by the read and the other has not, the other writes after the read. */
  lemma BetweenIsLater(q: nat, h: seq<Step>, g: seq<Step>, i: nat, j: nat) returns (ws: seq<Step>)
    requires q > 0 && Met(q, h) && Only(Registered, h) == Only(Registered, g)
    requires i < |h| && j < |g| && h[i].Ask? && Only(Done, h[..i]) == Only(Done, g[..j])
    requires |Only(Registered, h[..i])| <= |Only(Registered, g[..j])|
    ensures Only(Registered, g[..j]) == Only(Registered, h[..i]) + ws
    ensures forall k | 0 <= k < |ws| ::
              ws[k].Write? && h[i].now < Quantised(ws[k].at + 1, q) && Fetched(h[..i]) < ws[k].at + 1
  {
    var a, b := Only(Registered, h[..i]), Only(Registered, g[..j]);
    OnlyFront(Registered, h, i);
    OnlyFront(Registered, g, j);
    ws := b[|a|..];
    assert b == a + ws;
    SharedAlike(h[..i], g[..j], ws);
    forall k | 0 <= k < |ws|
      ensures ws[k].Write? && h[i].now < Quantised(ws[k].at + 1, q) && Fetched(h[..i]) < ws[k].at + 1
    {
      AllRegistered(g[..j], |a| + k);
      var m := OnlyRest(Registered, h, i, |a| + k);
      hide Only, Quantised, Fetched;
      NotYet(q, h[i].now, h[m].at);
      FetchedBefore(q, h, i, h[m].at);
    }
  }

  /** Both have got as far in what belongs to both sides. */
  lemma SharedAlike(h: seq<Step>, g: seq<Step>, ws: seq<Step>)
    requires Only(Done, h) == Only(Done, g) && Only(Registered, g) == Only(Registered, h) + ws
    ensures forall i | 0 <= i < |ws| :: !Shared(ws[i])
  {
    hide Only;
    OnlyTwice(Shared, Registered, h);
    OnlyTwice(Shared, Registered, g);
    OnlyTwice(Shared, Done, h);
    OnlyTwice(Shared, Done, g);
    OnlyJoin(Shared, Only(Registered, h), ws);
    OnlyNone(Shared, ws);
  }

  lemma {:induction false} AllRegistered(h: seq<Step>, k: nat)
    requires k < |Only(Registered, h)|
    ensures Registered(Only(Registered, h)[k])
    decreases |h|
  {
    if h != [] && k < |Only(Registered, h[..|h| - 1])| { AllRegistered(h[..|h| - 1], k); }
  }
}
