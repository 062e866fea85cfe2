/** SIG0..SIG7 of SP_STATUS: the CPU writes them at its own instants, the signal processor runs ahead and must see each
    write only from its instant on. The register is live; a ring of what each write undoes turns it back. */
module SpSignals {
  import opened Arithmetic

  const RING := 32

  type Sig = bv8

  /** A write of the CPU: from which instant it is to be seen, when it was made, which signals it changed and what
      they were; and whether it also cleared HALT on a running core. */
  datatype Wr = Wr(stamp: nat, raw: nat, mask: Sig, prev: Sig, late: bool)

  /** Each signal has a bit to clear it and a bit to set it; both at once do nothing. */
  function Apply(v: Sig, clear: Sig, set_: Sig): Sig {
    (v & !(clear & !set_)) | (set_ & !clear)
  }

  /** What a write makes of the register: a signal that is cleared and not set is clear, one that is set and not cleared is
      set, and every other stays as it was. */
  ghost predicate Written(v: Sig, clear: Sig, set_: Sig, now: Sig) {
    now & (clear & !set_) == 0 && now & (set_ & !clear) == set_ & !clear && (now ^ v) & !(clear ^ set_) == 0
  }

  lemma ApplyWrites(v: Sig, clear: Sig, set_: Sig)
    ensures Written(v, clear, set_, Apply(v, clear, set_))
  {
    ClearsWhatItClears(v, clear, set_);
    SetsWhatItSets(v, clear, set_);
    LeavesTheOthers(v, clear, set_);
    hide Apply;
  }

  lemma ClearsWhatItClears(v: Sig, clear: Sig, set_: Sig)
    ensures Apply(v, clear, set_) & (clear & !set_) == 0
  {
  }

  lemma SetsWhatItSets(v: Sig, clear: Sig, set_: Sig)
    ensures Apply(v, clear, set_) & (set_ & !clear) == set_ & !clear
  {
  }

  lemma LeavesTheOthers(v: Sig, clear: Sig, set_: Sig)
    ensures (Apply(v, clear, set_) ^ v) & !(clear ^ set_) == 0
  {
  }

  function TurnBack(v: Sig, w: Wr): Sig { (v & !w.mask) | (w.prev & w.mask) }

  /** The register with the writes undone, newest first. */
  function Undo(v: Sig, ws: seq<Wr>): Sig
    decreases |ws|
  {
    if ws == [] then v else Undo(TurnBack(v, ws[|ws| - 1]), ws[..|ws| - 1])
  }

  /** How many at the front have been seen by instant t. */
  function Past(ws: seq<Wr>, t: nat): (n: nat)
    ensures n <= |ws| && (n < |ws| ==> ws[n].stamp > t) && forall i | 0 <= i < n :: ws[i].stamp <= t
  {
    if ws == [] || ws[0].stamp > t then 0 else 1 + Past(ws[1..], t)
  }

  lemma PastIs(ws: seq<Wr>, t: nat, n: nat)
    requires n <= |ws| && (n < |ws| ==> ws[n].stamp > t) && forall i | 0 <= i < n :: ws[i].stamp <= t
    ensures Past(ws, t) == n
  {
    hide Past;
  }

  /** Writes were made in order, and are to be seen in order by anyone who looks from instant `asked` on. */
  ghost predicate InOrder(ws: seq<Wr>, asked: nat) {
    forall i, j | 0 <= i < j < |ws| ::
      ws[i].raw <= ws[j].raw && (ws[i].stamp <= asked || ws[i].stamp <= ws[j].stamp)
  }

  /** Then what has been seen by t is exactly what is stamped by t. */
  lemma PastIsStamped(ws: seq<Wr>, asked: nat, t: nat, i: nat)
    requires InOrder(ws, asked) && asked <= t && i < |ws|
    ensures i < Past(ws, t) <==> ws[i].stamp <= t
  {
    hide Past;
    var n := Past(ws, t);
    if n < i { assert ws[n].stamp > asked; }
  }

  /** What the signal processor sees at instant t. */
  function SeenAt(v: Sig, ws: seq<Wr>, t: nat): Sig {
    Undo(v, ws[Past(ws, t)..])
  }

  // ---- a write of the CPU ----

  /** What a write from v to now leaves in the ring. */
  function Record(stamp: nat, raw: nat, v: Sig, now: Sig, late: bool): Wr {
    Wr(stamp, raw, v ^ now, v & (v ^ now), late)
  }

  lemma RecordTurnsBack(stamp: nat, raw: nat, v: Sig, now: Sig, late: bool)
    ensures TurnBack(now, Record(stamp, raw, v, now, late)) == v
  {
  }

  /** It is not seen before its stamp, and from then on it is. */
  lemma WriteIsSeen(v: Sig, ws: seq<Wr>, now: Sig, stamp: nat, raw: nat, late: bool, t: nat)
    requires forall i | 0 <= i < |ws| :: ws[i].stamp <= stamp
    ensures SeenAt(now, ws + [Record(stamp, raw, v, now, late)], t) == if t < stamp then SeenAt(v, ws, t) else now
  {
    var w := Record(stamp, raw, v, now, late);
    var all, n := ws + [w], Past(ws, t);
    RecordTurnsBack(stamp, raw, v, now, late);
    assert w.stamp == stamp;
    hide Past, TurnBack, Record;
    if t < stamp {
      PastIs(all, t, n);
      assert all[n..] == ws[n..] + [w] && (ws[n..] + [w])[..|ws| - n] == ws[n..];
    } else {
      PastIs(all, t, |all|);
      assert all[|all|..] == [];
    }
  }

  // ---- a write of the signal processor ----

  function Changed(v: Sig, now: Sig): Sig { v ^ now }

  /** The given signals from one value, the others from another. */
  function Mixed(bits: Sig, from: Sig, others: Sig): Sig { (others & !bits) | (from & bits) }

  function Without(w: Wr, bits: Sig): Wr { w.(mask := w.mask & !bits) }

  function AllWithout(ws: seq<Wr>, bits: Sig): (r: seq<Wr>)
    ensures |r| == |ws| && forall i | 0 <= i < |ws| :: r[i] == Without(ws[i], bits)
  {
    seq(|ws|, i requires 0 <= i < |ws| => Without(ws[i], bits))
  }

  /** Signals taken out of every mask stay as they are in the register, and the others are turned back as before. */
  lemma {:induction false} UndoWithout(v: Sig, now: Sig, ws: seq<Wr>, bits: Sig)
    requires now & !bits == v & !bits
    ensures Undo(now, AllWithout(ws, bits)) == (Undo(v, ws) & !bits) | (now & bits)
    decreases |ws|
  {
    var r := AllWithout(ws, bits);
    if ws != [] {
      var n := |ws| - 1;
      assert r[..n] == AllWithout(ws[..n], bits);
      var back, other := TurnBack(now, r[n]), TurnBack(v, ws[n]);
      TurnsAlike(v, now, ws[n], bits);
      UndoWithout(other, back, ws[..n], bits);
    } else {
      assert r == [];
    }
  }

  lemma TurnsAlike(v: Sig, now: Sig, w: Wr, bits: Sig)
    requires now & !bits == v & !bits
    ensures var back := TurnBack(now, Without(w, bits));
            back & !bits == TurnBack(v, w) & !bits && back & bits == now & bits
  {
  }

  /** A signal that the signal processor flips is seen at once, at every instant, and no write of the CPU still to
      come turns it back; the other signals are as they were. */
  lemma FlipIsSeen(v: Sig, now: Sig, ws: seq<Wr>, t: nat)
    ensures SeenAt(now, AllWithout(ws, Changed(v, now)), t) == Mixed(Changed(v, now), now, SeenAt(v, ws, t))
  {
    var bits := v ^ now;
    assert now & !bits == v & !bits;
    var r, n := AllWithout(ws, bits), Past(ws, t);
    PastIs(r, t, n);
    assert r[n..] == AllWithout(ws[n..], bits);
    UndoWithout(v, now, ws[n..], bits);
  }

  /** A write that leaves the live signal as it is does not reach through a write of the CPU still to come: with SIG0
      set at 10 by the CPU, the signal processor that sets it at 5 goes on seeing it clear. */
  lemma SettingWhatIsSetIsNotSeen()
    ensures var w := Record(10, 10, 0, 1, false);
            Apply(1, 0, 1) == 1 && SeenAt(Apply(1, 0, 1), AllWithout([w], 1 ^ Apply(1, 0, 1)), 5) == 0
  {
    var w := Record(10, 10, 0, 1, false);
    var r := AllWithout([w], 1 ^ Apply(1, 0, 1));
    assert r == [w] && r[0..] == [w] && [w][..0] == [];
    PastIs(r, 5, 0);
  }

  // ---- the writes of the CPU alone ----

  datatype Cmd = Cmd(clear: Sig, set_: Sig)

  /** The signals after some writes. */
  function Fold(v: Sig, cmds: seq<Cmd>): Sig
    decreases |cmds|
  {
    if cmds == [] then v
    else
      Apply(Fold(v, cmds[..|cmds| - 1]), cmds[|cmds| - 1].clear, cmds[|cmds| - 1].set_)
  }

  /** The ring turns the register back write by write: entry i undoes the (from + i)-th write. */
  ghost predicate Chained(start: Sig, cmds: seq<Cmd>, from: nat, ws: seq<Wr>) {
    && |cmds| == from + |ws|
    && forall i | 0 <= i < |ws| ::
         TurnBack(Fold(start, cmds[..from + i + 1]), ws[i]) == Fold(start, cmds[..from + i])
  }

  lemma {:induction false} UndoIsFold(start: Sig, cmds: seq<Cmd>, from: nat, ws: seq<Wr>, k: nat)
    requires Chained(start, cmds, from, ws) && k <= |ws|
    ensures Undo(Fold(start, cmds), ws[k..]) == Fold(start, cmds[..from + k])
    decreases |ws|
  {
    hide TurnBack, Fold;
    if k == |ws| {
      assert ws[k..] == [] && cmds[..from + k] == cmds;
    } else {
      var n := |ws| - 1;
      assert cmds[..from + n + 1] == cmds;
      assert ws[k..][..n - k] == ws[..n][k..];
      var fewer := cmds[..from + n];
      assert fewer[..from + k] == cmds[..from + k];
      FewerChained(start, cmds, from, ws);
      UndoIsFold(start, fewer, from, ws[..n], k);
    }
  }

  lemma FewerChained(start: Sig, cmds: seq<Cmd>, from: nat, ws: seq<Wr>)
    requires Chained(start, cmds, from, ws) && ws != []
    ensures Chained(start, cmds[..from + |ws| - 1], from, ws[..|ws| - 1])
  {
    hide TurnBack, Fold;
    var n := |ws| - 1;
    var fewer := cmds[..from + n];
    forall i | 0 <= i < n
      ensures TurnBack(Fold(start, fewer[..from + i + 1]), ws[..n][i]) == Fold(start, fewer[..from + i])
    {
      assert fewer[..from + i + 1] == cmds[..from + i + 1] && fewer[..from + i] == cmds[..from + i];
    }
  }

  lemma MoreChained(start: Sig, cmds: seq<Cmd>, from: nat, ws: seq<Wr>, c: Cmd, w: Wr)
    requires Chained(start, cmds, from, ws)
    requires var v := Fold(start, cmds); w == Record(w.stamp, w.raw, v, Apply(v, c.clear, c.set_), w.late)
    ensures Chained(start, cmds + [c], from, ws + [w])
    ensures Fold(start, cmds + [c]) == Apply(Fold(start, cmds), c.clear, c.set_)
  {
    var more, all := cmds + [c], ws + [w];
    assert more[..|cmds|] == cmds && more[..|cmds| + 1] == more;
    var v := Fold(start, cmds);
    RecordTurnsBack(w.stamp, w.raw, v, Apply(v, c.clear, c.set_), w.late);
    hide Record;
    assert TurnBack(Apply(v, c.clear, c.set_), w) == v;
    assert Fold(start, more) == Apply(v, c.clear, c.set_);
    hide TurnBack, Fold, Apply;
    forall i | 0 <= i < |all|
      ensures TurnBack(Fold(start, more[..from + i + 1]), all[i]) == Fold(start, more[..from + i])
    {
      if i < |ws| {
        assert more[..from + i + 1] == cmds[..from + i + 1] && more[..from + i] == cmds[..from + i];
      }
    }
  }

  lemma RestChained(start: Sig, cmds: seq<Cmd>, from: nat, ws: seq<Wr>, k: nat)
    requires Chained(start, cmds, from, ws) && k <= |ws|
    ensures Chained(start, cmds, from + k, ws[k..])
  {
    hide TurnBack, Fold;
    forall i | 0 <= i < |ws| - k
      ensures TurnBack(Fold(start, cmds[..from + k + i + 1]), ws[k..][i]) == Fold(start, cmds[..from + k + i])
    {
      assert ws[k..][i] == ws[k + i] && from + (k + i) == from + k + i;
    }
  }

  // ---- the register and its ring ----

  /** The next multiple of the quantum. */
  function Quantised(raw: nat, quantum: nat): nat
    requires quantum > 0
  {
    (raw + quantum - 1) / quantum * quantum
  }

  /** The least multiple that is no earlier. */
  lemma QuantisedIs(raw: nat, q: nat)
    requires q > 0
    ensures raw <= Quantised(raw, q) < raw + q && Quantised(raw, q) % q == 0
  {
    var k := (raw + q - 1) / q;
    Euclid(raw + q - 1, q);
    Quotient(k * q, q, k, 0);
  }

  lemma QuantisedRises(a: nat, b: nat, q: nat)
    requires q > 0 && a <= b
    ensures a <= Quantised(a, q) <= Quantised(b, q)
  {
    Divide(a + q - 1, q);
    QuotientGrows(a + q - 1, b + q - 1, q);
    Grows(q, (a + q - 1) / q, (b + q - 1) / q);
  }

  /** The ring from `head` on. */
  function Pending(ring: seq<Wr>, head: nat, count: nat): (ws: seq<Wr>)
    requires |ring| == RING
    ensures |ws| == count && forall i | 0 <= i < count :: ws[i] == ring[(head + i) % RING]
  {
    seq(count, i requires 0 <= i < count => ring[(head + i) % RING])
  }

  lemma PopPending(ring: seq<Wr>, head: nat, count: nat)
    requires |ring| == RING && head < RING && 0 < count <= RING
    ensures Pending(ring, (head + 1) % RING, count - 1) == Pending(ring, head, count)[1..]
  {
    var now, rest := Pending(ring, (head + 1) % RING, count - 1), Pending(ring, head, count)[1..];
    forall i | 0 <= i < count - 1 ensures now[i] == rest[i] { Around(head, i); }
  }

  lemma Around(head: nat, i: nat)
    ensures ((head + 1) % RING + i) % RING == (head + (i + 1)) % RING
  {
  }

  lemma PushPending(ring: seq<Wr>, head: nat, count: nat, w: Wr)
    requires |ring| == RING && head < RING && count < RING
    ensures Pending(ring[(head + count) % RING := w], head, count + 1) == Pending(ring, head, count) + [w]
  {
    var now, more := Pending(ring[(head + count) % RING := w], head, count + 1), Pending(ring, head, count) + [w];
    forall i | 0 <= i < count + 1 ensures now[i] == more[i] {
      if i < count { OwnSlots(head + i, head + count, RING); }
    }
  }

  /** A write changes in place, and the others stay. */
  lemma SetPending(ring: seq<Wr>, head: nat, count: nat, k: nat, w: Wr)
    requires |ring| == RING && head < RING && k < count <= RING
    ensures Pending(ring[(head + k) % RING := w], head, count) == Pending(ring, head, count)[k := w]
  {
    var now, other := Pending(ring[(head + k) % RING := w], head, count), Pending(ring, head, count)[k := w];
    forall i | 0 <= i < count ensures now[i] == other[i] {
      if i < k { OwnSlots(head + i, head + k, RING); } else if k < i { OwnSlots(head + k, head + i, RING); }
    }
  }

  /** What a write of the CPU at instant `at` leaves in the ring: nothing if it changes nothing. */
  function Kept(q: nat, v: Sig, now: Sig, at: nat, late: bool): seq<Wr>
    requires q > 0
  {
    if now == v && !late then [] else [Record(Quantised(at + 1, q), at + 1, v, now, late)]
  }

  class Signals {
    var reg: Sig
    const ring: array<Wr>
    var head: nat
    var count: nat
    const quantum: nat
    // The last instant the signal processor asked about. While `exact`, only the CPU has changed signals since `start`
    // and the ring has never been full: `cmds` are its writes, the first `gone` of them out of the ring.
    ghost var asked: nat
    ghost var start: Sig
    ghost var cmds: seq<Cmd>
    ghost var gone: nat
    ghost var exact: bool

    ghost function Ws(): (ws: seq<Wr>)
      requires ring.Length == RING
      reads `head, `count, ring
      ensures |ws| == count
    {
      Pending(ring[..], head, count)
    }

    ghost predicate Stamped(ws: seq<Wr>)
      requires quantum > 0
    {
      forall i | 0 <= i < |ws| :: ws[i].stamp <= Quantised(ws[i].raw, quantum)
    }

    ghost predicate Valid()
      reads this, ring
    {
      && ring.Length == RING && quantum > 0 && head < RING && count <= RING
      && InOrder(Ws(), asked) && Stamped(Ws())
      && (exact ==> reg == Fold(start, cmds) && Chained(start, cmds, gone, Ws()))
    }

    /** What the signal processor would see at instant t. */
    ghost function Seen(t: nat): Sig
      requires ring.Length == RING
      reads `reg, `head, `count, ring
    {
      SeenAt(reg, Ws(), t)
    }

    constructor (q: nat)
      requires q > 0
      ensures Valid() && reg == 0 && count == 0 && exact && cmds == []
    {
      ring := new Wr[RING](_ => Wr(0, 0, 0, 0, false));
      quantum, reg, head, count := q, 0, 0, 0;
      asked, start, cmds, gone, exact := 0, 0, [], 0, true;
    }

    // ---- the CPU ----

    /** The oldest write leaves the ring. */
    method Pop()
      requires Valid() && count > 0 && (Ws()[0].stamp <= asked || !exact)
      modifies this`head, this`count, this`gone
      ensures Valid() && Ws() == old(Ws())[1..] && gone == old(gone) + 1
    {
      hide Fold, TurnBack;
      PopPending(ring[..], head, count);
      if exact { RestChained(start, cmds, gone, Ws(), 1); }
      head, count := (head + 1) % RING, count - 1;
      gone := gone + 1;
    }

    /** A write goes behind the others. */
    method Push(w: Wr, ghost before: Sig, ghost c: Cmd)
      requires ring.Length == RING && quantum > 0 && head < RING && count < RING
      requires InOrder(Ws() + [w], asked) && Stamped(Ws() + [w])
      requires reg == Apply(before, c.clear, c.set_) && w == Record(w.stamp, w.raw, before, reg, w.late)
      requires exact ==> before == Fold(start, cmds) && Chained(start, cmds, gone, Ws())
      modifies this`count, this`cmds, ring
      ensures Valid() && Ws() == old(Ws()) + [w]
    {
      hide Fold, TurnBack, Apply, InOrder, Stamped, Pending, Record;
      PushPending(ring[..], head, count, w);
      if exact { MoreChained(start, cmds, gone, Ws(), c, w); }
      ghost var was := ring[..];
      ring[(head + count) % RING] := w;
      assert ring[..] == was[(head + count) % RING := w];
      count := count + 1;
      cmds := cmds + [c];
    }

    /** No pending write was made later than at instant raw, nor is to be seen later than such a one. */
    lemma NewestWrite(w: Wr)
      requires Valid() && (forall i | 0 <= i < count :: Ws()[i].raw <= w.raw)
      requires w.stamp == Quantised(w.raw, quantum)
      ensures InOrder(Ws() + [w], asked) && Stamped(Ws() + [w])
      ensures forall i | 0 <= i < count :: Ws()[i].stamp <= w.stamp
    {
      hide Quantised, Chained, Fold;
      forall i | 0 <= i < count ensures Ws()[i].stamp <= w.stamp { QuantisedRises(Ws()[i].raw, w.raw, quantum); }
    }

    /** A write of SP_STATUS by the CPU at its instant `at`: the register changes, and the ring keeps what is needed to
        hide it until its instant, rounded up to the quantum. If the ring is full the oldest write can no longer be
        hidden. `late`: it also cleared HALT on a core that was running. */
    method CpuWrite(clear: Sig, set_: Sig, at: nat, late: bool)
      requires Valid() && forall i | 0 <= i < count :: Ws()[i].raw <= at + 1
      modifies this`reg, this`head, this`count, this`cmds, this`gone, this`exact, ring
      ensures Valid() && reg == Apply(old(reg), clear, set_) && Written(old(reg), clear, set_, reg)
      ensures exact == (old(exact) && (old(count) < 32 || (reg == old(reg) && !late)))
      ensures old(count) < 32 ==> SeenFrom(reg, Ws(), Quantised(at + 1, quantum), old(reg), old(Ws()))
      ensures old(count) < 32 ==> Ws() == old(Ws()) + Kept(quantum, old(reg), reg, at, late)
    {
      hide Fold, TurnBack, Apply, Quantised, Chained, SeenFrom, Pending, InOrder, Stamped;
      ApplyWrites(reg, clear, set_);
      hide Written;
      var w := Record(Quantised(at + 1, quantum), at + 1, reg, Apply(reg, clear, set_), late);
      NewestWrite(w);
      MaskSays(reg, Apply(reg, clear, set_));
      if w.mask == 0 && !late {
        NothingNew(reg, Ws(), w.stamp);
        assert Ws() + [] == Ws();
      } else {
        Keep(w, clear, set_);
      }
    }

    /** The register changes, and the ring takes what undoes it. */
    method Keep(w: Wr, clear: Sig, set_: Sig)
      requires Valid() && InOrder(Ws() + [w], asked) && Stamped(Ws() + [w])
      requires forall i | 0 <= i < count :: Ws()[i].stamp <= w.stamp
      requires w == Record(w.stamp, w.raw, reg, Apply(reg, clear, set_), w.late)
      modifies this`reg, this`head, this`count, this`cmds, this`gone, this`exact, ring
      ensures Valid() && reg == Apply(old(reg), clear, set_) && exact == (old(exact) && old(count) < RING)
      ensures old(count) < RING ==> SeenFrom(reg, Ws(), w.stamp, old(reg), old(Ws())) && Ws() == old(Ws()) + [w]
    {
      hide Fold, TurnBack, Apply, Chained, SeenFrom, Pending, InOrder, Stamped, Record;
      AfterWrite(Ws(), w, reg, Apply(reg, clear, set_));
      if count == RING {
        exact := false;
        TailKeeps(Ws(), w, asked);
        Pop();
      }
      ghost var before := reg;
      reg := Apply(reg, clear, set_);
      Push(w, before, Cmd(clear, set_));
    }

    lemma TailKeeps(ws: seq<Wr>, w: Wr, asked: nat)
      requires quantum > 0 && ws != [] && InOrder(ws + [w], asked) && Stamped(ws + [w])
      ensures InOrder(ws[1..] + [w], asked) && Stamped(ws[1..] + [w])
    {
      hide Quantised;
      assert ws[1..] + [w] == (ws + [w])[1..];
    }

    // ---- the signal processor ----

    ghost predicate Shape() { ring.Length == RING && quantum > 0 }

    /** The k-th pending write changes in place. */
    method Change(k: nat, w: Wr)
      requires Shape() && head < RING && k < count <= RING
      modifies ring
      ensures Ws() == old(Ws())[k := w]
    {
      hide Pending;
      SetPending(ring[..], head, count, k, w);
      ghost var was := ring[..];
      ring[(head + k) % RING] := w;
      assert ring[..] == was[(head + k) % RING := w];
    }

    /** No pending write turns these signals back any more. */
    method Release(bits: Sig)
      requires Shape() && head < RING && count <= RING
      modifies ring
      ensures Ws() == AllWithout(old(Ws()), bits)
    {
      hide Without, Pending;
      ghost var ws := Ws();
      var k := 0;
      while k < count
        invariant k <= count == |ws|
        invariant forall i | 0 <= i < count :: Ws()[i] == if i < k then Without(ws[i], bits) else ws[i]
      {
        assert ring[(head + k) % RING] == Ws()[k] by { PendingAt(k); }
        Change(k, Without(ring[(head + k) % RING], bits));
        k := k + 1;
      }
    }

    lemma StillOrdered(ws: seq<Wr>, bits: Sig)
      requires Shape() && InOrder(ws, asked) && Stamped(ws)
      ensures InOrder(AllWithout(ws, bits), asked) && Stamped(AllWithout(ws, bits))
    {
      hide Quantised;
    }

    lemma PendingAt(k: nat)
      requires ring.Length == RING && k < count
      ensures Ws()[k] == ring[(head + k) % RING]
    {
    }

    /** A write of SP_STATUS by the signal processor is present to it: a signal that it flips stays so at every
        instant, whatever the CPU has written for later. */
    method RspWrite(clear: Sig, set_: Sig)
      requires Valid()
      modifies this`reg, this`exact, ring
      ensures Valid() && reg == Apply(old(reg), clear, set_) && Written(old(reg), clear, set_, reg)
      ensures Flipped(reg, Ws(), old(reg), old(Ws()))
      ensures Ws() == AllWithout(old(Ws()), Changed(old(reg), reg))
    {
      hide Chained, Fold, Apply, Pending, Flipped, AllWithout, InOrder, Stamped, Changed;
      ApplyWrites(reg, clear, set_);
      hide Written;
      ghost var ws := Ws();
      var before := reg;
      reg := Apply(reg, clear, set_);
      var changed := Changed(before, reg);
      StillOrdered(ws, changed);
      AfterFlip(before, reg, ws);
      if changed == 0 {
        Unchanged(before, reg);
        NoneWithout(ws);
      } else {
        exact := false;
        Release(changed);
      }
    }

    /** spSigAtKick: a launch. Every write made so far is in the register that the task starts with. */
    method AtKick()
      requires Valid()
      modifies ring
      ensures Valid() && forall t: nat | MadeBy(Ws(), t) :: SeenAt(reg, Ws(), t) == reg
      ensures Ws() == AtRaw(old(Ws()))
    {
      hide Fold, SeenAt, Pending, Quantised, TurnBack;
      ghost var ws := Ws();
      var k := 0;
      while k < count
        invariant k <= count && count == |ws|
        invariant forall i | 0 <= i < count ::
                    Ws()[i] == if i < k then ws[i].(stamp := ws[i].raw, late := false) else ws[i]
      {
        var w := ring[(head + k) % RING];
        Change(k, w.(stamp := w.raw, late := false));
        k := k + 1;
      }
      RawIsEarlier(ws);
      if exact { SameMasks(start, cmds, gone, ws, Ws()); }
      forall t: nat | MadeBy(Ws(), t) ensures SeenAt(reg, Ws(), t) == reg {
        AllPast(reg, Ws(), t);
      }
    }

    lemma RawIsEarlier(ws: seq<Wr>)
      requires quantum > 0
      ensures forall i | 0 <= i < |ws| :: ws[i].raw <= Quantised(ws[i].raw, quantum)
    {
      forall i | 0 <= i < |ws| ensures ws[i].raw <= Quantised(ws[i].raw, quantum) {
        QuantisedRises(ws[i].raw, ws[i].raw, quantum);
      }
    }

    lemma StampsFall(ws: seq<Wr>, r: seq<Wr>)
      requires quantum > 0 && Stamped(ws) && |r| == |ws|
      requires forall i | 0 <= i < |ws| :: r[i].raw == ws[i].raw && (r[i].stamp <= ws[i].raw || r[i].stamp == ws[i].stamp)
      ensures Stamped(r)
    {
      hide Quantised;
      RawIsEarlier(ws);
    }

    /** spSigUpTo: a transfer brings in what the CPU had written to RDRAM by instant `upto`; the signals it had written
        by then come with it, at the signal processor's instant. */
    method UpTo(upto: nat, now: nat)
      requires Valid() && asked <= now
      modifies this`asked, ring
      ensures Valid() && asked == now && |old(Ws())| == count
      ensures exists n: nat :: Made(old(Ws()), upto, n) && Brought(reg, Ws(), old(Ws()), n, now)
      ensures Ws() == Forward(old(Ws()), upto, now)
    {
      hide Fold, SeenAt, Pending, Quantised, TurnBack;
      ghost var ws := Ws();
      var k := 0;
      while k < count && ring[(head + k) % RING].raw <= upto
        invariant k <= count == |ws|
        invariant forall i | 0 <= i < k :: ws[i].raw <= upto
        invariant forall i | 0 <= i < count ::
                    Ws()[i] == if i < k then ws[i].(stamp := Earlier(ws[i].raw, now), late := false) else ws[i]
        modifies ring
      {
        var w := ring[(head + k) % RING];
        Change(k, w.(stamp := Earlier(w.raw, now), late := false));
        k := k + 1;
      }
      StampsFall(ws, Ws());
      if exact { SameMasks(start, cmds, gone, ws, Ws()); }
      BroughtFrom(reg, ws, Ws(), k, asked, now);
      ForwardIs(ws, Ws(), upto, now, k);
      hide InOrder, Stamped, Chained, Brought, Forward;
      assert Made(ws, upto, k);
      asked := now;
    }

    /** spStatusForRsp: what is stamped by `now` has happened and leaves the ring; what is not is undone. */
    method StatusForRsp(now: nat) returns (v: Sig)
      requires Valid() && asked <= now
      modifies this`head, this`count, this`gone, this`asked
      ensures Valid() && asked == now && v == old(Seen(now))
      ensures Ws() == old(Ws())[Past(old(Ws()), now)..] && forall i | 0 <= i < count :: Ws()[i].stamp > now
      ensures exact ==> gone <= |cmds| && v == Fold(start, cmds[..gone])
    {
      hide Fold, Pending, Quantised, TurnBack, Past, InOrder, Stamped;
      Forget(now);
      v := Peel();
      if exact { assert Ws()[0..] == Ws(); UndoIsFold(start, cmds, gone, Ws(), 0); }
      StillToCome(now);
    }

    /** What has happened by `now` leaves the ring. */
    method Forget(now: nat)
      requires Valid() && asked <= now
      modifies this`head, this`count, this`gone, this`asked
      ensures Valid() && asked == now && Ws() == old(Ws())[Past(old(Ws()), now)..]
      ensures count > 0 ==> Ws()[0].stamp > now
    {
      hide Fold, Pending, Stamped, TurnBack, Past, Chained;
      ghost var ws, n := Ws(), 0;
      assert ws[0..] == ws;
      asked := now;
      while count != 0 && ring[head].stamp <= now
        invariant Valid() && asked == now && n <= |ws| && Ws() == ws[n..] && forall i | 0 <= i < n :: ws[i].stamp <= now
        decreases count
      {
        FrontOf();
        Pop();
        assert ws[n..][1..] == ws[n + 1..];
        n := n + 1;
      }
      if count != 0 { FrontOf(); }
      PastIs(ws, now, n);
    }

    lemma FrontOf()
      requires Valid() && count > 0
      ensures Ws()[0] == ring[head]
    {
      hide Fold, Chained, InOrder, Stamped;
    }

    lemma StillToCome(now: nat)
      requires Valid() && asked == now && (count > 0 ==> Ws()[0].stamp > now)
      ensures forall i | 0 <= i < count :: Ws()[i].stamp > now
    {
      hide Pending, Fold, Chained;
    }

    /** The loop that turns the register back. */
    method Peel() returns (v: Sig)
      requires Shape() && head < RING && count <= RING
      ensures v == Undo(reg, Ws())
    {
      hide TurnBack, Pending;
      v := reg;
      var k := count;
      assert Ws()[..count] == Ws();
      while k > 0
        invariant 0 <= k <= count && Undo(v, Ws()[..k]) == Undo(reg, Ws())
      {
        k := k - 1;
        assert Ws()[..k + 1][..k] == Ws()[..k];
        v := TurnBack(v, ring[(head + k) % RING]);
      }
    }
  }

  /** What a write undoes does not depend on when it is to be seen. */
  lemma SameMasks(start: Sig, cmds: seq<Cmd>, from: nat, ws: seq<Wr>, now: seq<Wr>)
    requires Chained(start, cmds, from, ws) && |now| == |ws|
    requires forall i | 0 <= i < |ws| :: now[i].mask == ws[i].mask && now[i].prev == ws[i].prev
    ensures Chained(start, cmds, from, now)
  {
    hide Fold;
  }

  ghost predicate MadeBy(ws: seq<Wr>, t: nat) {
    forall i | 0 <= i < |ws| :: ws[i].raw <= t
  }

  function Earlier(a: nat, b: nat): nat { if a < b then a else b }

  /** The first n were made by instant `upto`, and no others. */
  ghost predicate Made(ws: seq<Wr>, upto: nat, n: nat) {
    n <= |ws| && (forall i | 0 <= i < n :: ws[i].raw <= upto) && (n < |ws| ==> ws[n].raw > upto)
  }

  /** The writes made by instant `upto` become visible when they were made, or at `now` if that is earlier. */
  function Forward(ws: seq<Wr>, upto: nat, now: nat): (r: seq<Wr>)
    ensures |r| == |ws|
  {
    if ws == [] || ws[0].raw > upto then ws
    else [ws[0].(stamp := Earlier(ws[0].raw, now), late := false)] + Forward(ws[1..], upto, now)
  }

  lemma {:induction false} ForwardIs(ws: seq<Wr>, r: seq<Wr>, upto: nat, now: nat, n: nat)
    requires |r| == |ws| && Made(ws, upto, n)
    requires forall i | 0 <= i < |ws| ::
               r[i] == if i < n then ws[i].(stamp := Earlier(ws[i].raw, now), late := false) else ws[i]
    ensures r == Forward(ws, upto, now)
    decreases |ws|
  {
    if n > 0 { ForwardIs(ws[1..], r[1..], upto, now, n - 1); } else { assert r == ws; }
  }

  /** From `now` on, those n are seen besides what was seen before; the rest as before. */
  ghost predicate Brought(v: Sig, ws: seq<Wr>, was: seq<Wr>, n: nat, now: nat)
    requires |ws| == |was|
  {
    n <= |was| &&
    forall t: nat | t >= now :: SeenAt(v, ws, t) == Undo(v, was[if Past(was, t) < n then n else Past(was, t)..])
  }

  lemma BroughtFrom(v: Sig, was: seq<Wr>, ws: seq<Wr>, n: nat, asked: nat, now: nat)
    requires |ws| == |was| && n <= |was| && InOrder(was, asked) && asked <= now
    requires forall i | 0 <= i < |ws| ::
               ws[i] == if i < n then was[i].(stamp := Earlier(was[i].raw, now), late := false) else was[i]
    ensures InOrder(ws, now) && Brought(v, ws, was, n, now)
  {
    hide SeenAt, Undo, Past, InOrder;
    forall t: nat | t >= now
      ensures SeenAt(v, ws, t) == Undo(v, was[if Past(was, t) < n then n else Past(was, t)..])
    {
      BroughtAt(v, was, ws, n, asked, now, t);
    }
    StillInOrder(was, ws, n, asked, now);
  }

  lemma StillInOrder(was: seq<Wr>, ws: seq<Wr>, n: nat, asked: nat, now: nat)
    requires |ws| == |was| && n <= |was| && InOrder(was, asked) && asked <= now
    requires forall i | 0 <= i < |ws| ::
               ws[i] == if i < n then was[i].(stamp := Earlier(was[i].raw, now), late := false) else was[i]
    ensures InOrder(ws, now)
  {
    forall i, j | 0 <= i < j < |ws| ensures ws[i].raw <= ws[j].raw && (ws[i].stamp <= now || ws[i].stamp <= ws[j].stamp) {
      assert was[i].raw <= was[j].raw;
    }
  }

  lemma BroughtAt(v: Sig, was: seq<Wr>, ws: seq<Wr>, n: nat, asked: nat, now: nat, t: nat)
    requires |ws| == |was| && n <= |was| && InOrder(was, asked) && asked <= now <= t
    requires forall i | 0 <= i < |ws| ::
               ws[i] == if i < n then was[i].(stamp := Earlier(was[i].raw, now), late := false) else was[i]
    ensures SeenAt(v, ws, t) == Undo(v, was[if Past(was, t) < n then n else Past(was, t)..])
  {
    hide Past, Undo;
    var p := Past(was, t);
    var m := if p < n then n else p;
    if m < |was| && p < n { assert was[p].stamp <= was[m].stamp; }
    PastIs(ws, t, m);
    assert ws[m..] == was[m..];
  }

  lemma AllPast(v: Sig, ws: seq<Wr>, t: nat)
    requires forall i | 0 <= i < |ws| :: ws[i].stamp <= t
    ensures SeenAt(v, ws, t) == v
  {
    hide Past, TurnBack;
    PastIs(ws, t, |ws|);
    assert ws[|ws|..] == [];
  }

  lemma NoneWithout(ws: seq<Wr>)
    ensures AllWithout(ws, 0) == ws
  {
    forall i | 0 <= i < |ws| ensures Without(ws[i], 0) == ws[i] { assert ws[i].mask & !0 == ws[i].mask; }
  }

  /** Every signal that the write flipped is seen as it is; the others as they were. */
  ghost predicate Flipped(now: Sig, pending: seq<Wr>, before: Sig, ws: seq<Wr>) {
    forall t: nat :: SeenAt(now, pending, t) == Mixed(Changed(before, now), now, SeenAt(before, ws, t))
  }

  lemma AfterFlip(v: Sig, now: Sig, ws: seq<Wr>)
    ensures Flipped(now, AllWithout(ws, Changed(v, now)), v, ws)
  {
    hide SeenAt, Mixed, Changed, AllWithout;
    forall t: nat
      ensures SeenAt(now, AllWithout(ws, Changed(v, now)), t) == Mixed(Changed(v, now), now, SeenAt(v, ws, t))
    {
      FlipIsSeen(v, now, ws, t);
    }
  }

  /** From instant s on the register is seen as it is; before, as it was with the writes that were pending. */
  ghost predicate SeenFrom(now: Sig, pending: seq<Wr>, s: nat, before: Sig, ws: seq<Wr>) {
    forall t: nat :: SeenAt(now, pending, t) == if t < s then SeenAt(before, ws, t) else now
  }

  lemma NothingNew(v: Sig, ws: seq<Wr>, s: nat)
    requires forall i | 0 <= i < |ws| :: ws[i].stamp <= s
    ensures SeenFrom(v, ws, s, v, ws)
  {
    hide Past, TurnBack;
    forall t: nat | t >= s ensures SeenAt(v, ws, t) == v {
      PastIs(ws, t, |ws|);
      assert ws[|ws|..] == [];
    }
  }

  lemma Unchanged(v: Sig, now: Sig)
    requires Changed(v, now) == 0
    ensures now == v
  {
    SameRegister(v, now);
  }

  lemma SameRegister(v: Sig, now: Sig)
    requires v ^ now == 0
    ensures now == v
  {
  }

  lemma AfterWrite(ws: seq<Wr>, w: Wr, v: Sig, now: Sig)
    requires forall i | 0 <= i < |ws| :: ws[i].stamp <= w.stamp
    requires w == Record(w.stamp, w.raw, v, now, w.late)
    ensures SeenFrom(now, ws + [w], w.stamp, v, ws)
  {
    hide SeenAt;
    forall t: nat ensures SeenAt(now, ws + [w], t) == if t < w.stamp then SeenAt(v, ws, t) else now {
      WriteIsSeen(v, ws, now, w.stamp, w.raw, w.late, t);
    }
  }

  // ---- dates ----

  /** When a write is to be seen, and when it was made. */
  datatype Date = Date(stamp: nat, raw: nat)

  function Dates(ws: seq<Wr>): (ds: seq<Date>)
    ensures |ds| == |ws| && forall i | 0 <= i < |ws| :: ds[i] == Date(ws[i].stamp, ws[i].raw)
  {
    seq(|ws|, i requires 0 <= i < |ws| => Date(ws[i].stamp, ws[i].raw))
  }

  /** At a launch every write is to be seen when it was made. */
  function AtOnce(ds: seq<Date>): (r: seq<Date>)
    ensures |r| == |ds| && forall i | 0 <= i < |ds| :: r[i] == Date(ds[i].raw, ds[i].raw)
  {
    seq(|ds|, i requires 0 <= i < |ds| => Date(ds[i].raw, ds[i].raw))
  }

  /** At a launch every write becomes visible when it was made. */
  function AtRaw(ws: seq<Wr>): (r: seq<Wr>)
    ensures |r| == |ws| && forall i | 0 <= i < |ws| :: r[i] == ws[i].(stamp := ws[i].raw, late := false)
  {
    seq(|ws|, i requires 0 <= i < |ws| => ws[i].(stamp := ws[i].raw, late := false))
  }

  function Unseen(ds: seq<Date>, now: nat): seq<Date> {
    if ds == [] || ds[0].stamp > now then ds else Unseen(ds[1..], now)
  }

  lemma MaskSays(v: Sig, now: Sig)
    ensures v ^ now == 0 <==> now == v
  {
    if v ^ now == 0 { SameRegister(v, now); }
  }

  lemma OneMoreDate(ws: seq<Wr>, w: Wr)
    ensures Dates(ws + [w]) == Dates(ws) + [Date(w.stamp, w.raw)]
  {
  }

  lemma SameDates(ws: seq<Wr>, bits: Sig)
    ensures Dates(AllWithout(ws, bits)) == Dates(ws) && Dates(AllWithout(ws, 0)) == Dates(ws)
  {
  }

  lemma {:induction false} UnseenIsPast(ws: seq<Wr>, now: nat)
    ensures Dates(ws[Past(ws, now)..]) == Unseen(Dates(ws), now)
    decreases |ws|
  {
    if ws != [] && ws[0].stamp <= now {
      UnseenIsPast(ws[1..], now);
      assert ws[1..][Past(ws[1..], now)..] == ws[Past(ws, now)..];
      assert Dates(ws)[1..] == Dates(ws[1..]);
    } else {
      assert ws[0..] == ws;
    }
  }
}
