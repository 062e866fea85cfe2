/** The display processor's jobs: one producer, one worker, a queue, and several generations of command buffers so
    that a buffer is never rewritten under a job that still reads it. */
module RdpQueue {
  import opened Base

  /** A span of commands, in the command memory of the signal processor (xbus) or in generation `gen`. */
  datatype Job = Job(current: nat, end: nat, xbus: bool, gen: nat)

  /** A command byte, where it was and what it was when the span was submitted. */
  datatype Cell = Cell(xbus: bool, addr: nat, byte: byte)

  /** What the worker thread is doing: between jobs, asleep on the condition variable, woken but not yet holding the
      lock, or painting. */
  datatype Pc = Idle | Asleep | Roused | Painting(job: Job)

  // ---- the queue, and joining a span to the last one ----

  predicate Joins(q: seq<Job>, j: Job) {
    q != [] && q[|q| - 1].end == j.current && q[|q| - 1].xbus == j.xbus && q[|q| - 1].gen == j.gen
  }

  function Enqueue(q: seq<Job>, j: Job): seq<Job> {
    if Joins(q, j) then q[|q| - 1 := q[|q| - 1].(end := j.end)] else q + [j]
  }

  /** The addresses of a job in painting order. */
  function Addrs(j: Job): (s: seq<nat>)
    ensures |s| == if j.current <= j.end then j.end - j.current else 0
  {
    if j.current <= j.end then seq(j.end - j.current, k requires 0 <= k => j.current + k) else []
  }

  function AllAddrs(q: seq<Job>): seq<nat>
    decreases |q|
  {
    if q == [] then [] else AllAddrs(q[..|q| - 1]) + Addrs(q[|q| - 1])
  }

  /** The list goes on in one direction, and the last waiting span in the other. */
  predicate Opposed(q: seq<Job>, j: Job) {
    Joins(q, j) && Against(q[|q| - 1], j)
  }

  predicate Against(b: Job, j: Job) {
    (j.current < j.end && b.end < b.current) || (j.end < j.current && b.current < b.end)
  }

  /** Joining a span to the last one loses, repeats and reorders nothing, unless the end of the list moves backwards
      between two submissions that join. */
  lemma JoiningKeeps(q: seq<Job>, j: Job)
    ensures AllAddrs(Enqueue(q, j)) == AllAddrs(q) + Addrs(j) <==> !Opposed(q, j)
  {
    if Joins(q, j) {
      hide AllAddrs, Addrs;
      var n := |q| - 1;
      LastJob(q, q[n]);
      LastJob(q, q[n].(end := j.end));
      assert q[n := q[n]] == q;
      JoinedAddrs(q[n], j);
      SamePrefix(AllAddrs(q[..n]), Addrs(q[n].(end := j.end)), Addrs(q[n]), Addrs(j));
    } else {
      assert (q + [j])[..|q|] == q;
    }
  }

  lemma SamePrefix(p: seq<nat>, x: seq<nat>, y: seq<nat>, z: seq<nat>)
    ensures p + x == p + y + z <==> x == y + z
  {
    assert p + y + z == p + (y + z);
    assert (p + x)[|p|..] == x && (p + (y + z))[|p|..] == y + z;
  }

  lemma LastJob(q: seq<Job>, j: Job)
    requires q != []
    ensures AllAddrs(q[|q| - 1 := j]) == AllAddrs(q[..|q| - 1]) + Addrs(j)
  {
    hide Addrs;
    assert q[|q| - 1 := j][..|q| - 1] == q[..|q| - 1];
  }

  lemma JoinedAddrs(b: Job, j: Job)
    requires b.end == j.current
    ensures Addrs(b.(end := j.end)) == Addrs(b) + Addrs(j) <==>
            !((j.current < j.end && b.end < b.current) || (j.end < j.current && b.current < b.end))
  {
    if (j.current < j.end && b.end < b.current) || (j.end < j.current && b.current < b.end) {
      assert |Addrs(b.(end := j.end))| != |Addrs(b)| + |Addrs(j)|;
    }
  }

  // ---- live jobs ----

  predicate Reads(j: Job, g: nat) { !j.xbus && j.gen == g }

  /** How many of the jobs read generation g. */
  function Readers(live: seq<Job>, g: nat): nat {
    if live == [] then 0 else (if Reads(live[0], g) then 1 else 0) + Readers(live[1..], g)
  }

  lemma {:induction false} ReadersMore(live: seq<Job>, j: Job, g: nat)
    ensures Readers(live + [j], g) == Readers(live, g) + if Reads(j, g) then 1 else 0
    decreases |live|
  {
    if live == [] {
      assert [] + [j] == [j] && [j][1..] == [];
    } else {
      assert (live + [j])[1..] == live[1..] + [j];
      ReadersMore(live[1..], j, g);
    }
  }

  lemma {:induction false} NoReaders(live: seq<Job>, g: nat, i: nat)
    requires Readers(live, g) == 0 && i < |live|
    ensures !Reads(live[i], g)
    decreases |live|
  {
    if i > 0 { NoReaders(live[1..], g, i - 1); }
  }

  /** A longer last job reads the same generation. */
  lemma LastReads(live: seq<Job>, end: nat, g: nat)
    requires live != []
    ensures Readers(live[|live| - 1 := live[|live| - 1].(end := end)], g) == Readers(live, g)
  {
    var n := |live| - 1;
    var j := live[n].(end := end);
    assert live == live[..n] + [live[n]] && live[n := j] == live[..n] + [j];
    ReadersMore(live[..n], live[n], g);
    ReadersMore(live[..n], j, g);
  }

  /** Reading past the last chip gives zero. */
  function ReadAt(sh: seq<byte>, a: nat): byte {
    if a < |sh| then sh[a] else 0
  }

  function CommandAt(sh: seq<byte>, j: Job, k: nat): byte {
    if j.xbus then 0 else ReadAt(sh, j.current + k)
  }

  /** The commands that painting the job now would read. */
  function Commands(sh: seq<byte>, j: Job): (t: seq<byte>)
    requires j.current <= j.end
    ensures |t| == j.end - j.current
  {
    seq(j.end - j.current, k requires 0 <= k => CommandAt(sh, j, k))
  }

  function Cells(j: Job, text: seq<byte>): (c: seq<Cell>)
    ensures |c| == |text|
  {
    seq(|text|, k requires 0 <= k < |text| => Cell(j.xbus, j.current + k, text[k]))
  }

  function AllCells(live: seq<Job>, texts: seq<seq<byte>>): seq<Cell>
    requires |live| == |texts|
  {
    if live == [] then [] else Cells(live[0], texts[0]) + AllCells(live[1..], texts[1..])
  }

  lemma {:induction false} AllCellsMore(live: seq<Job>, texts: seq<seq<byte>>, j: Job, t: seq<byte>)
    requires |live| == |texts|
    ensures AllCells(live + [j], texts + [t]) == AllCells(live, texts) + Cells(j, t)
    decreases |live|
  {
    hide Cells;
    if live == [] {
      assert [] + [j] == [j] && [] + [t] == [t] && [j][1..] == [] && [t][1..] == [];
      assert AllCells([j], [t]) == Cells(j, t) + [];
    } else {
      assert (live + [j])[1..] == live[1..] + [j] && (texts + [t])[1..] == texts[1..] + [t];
      AllCellsMore(live[1..], texts[1..], j, t);
      assert Cells(live[0], texts[0]) + (AllCells(live[1..], texts[1..]) + Cells(j, t)) ==
             Cells(live[0], texts[0]) + AllCells(live[1..], texts[1..]) + Cells(j, t);
    }
  }

  lemma LastGrows(live: seq<Job>, texts: seq<seq<byte>>, end: nat, t: seq<byte>, more: Job)
    requires |live| == |texts| && live != []
    requires var b := live[|live| - 1]; more.xbus == b.xbus && more.current == b.current + |texts[|live| - 1]|
    ensures var n := |live| - 1;
            AllCells(live[n := live[n].(end := end)], texts[n := texts[n] + t]) ==
            AllCells(live, texts) + Cells(more, t)
  {
    var n := |live| - 1;
    var j := live[n].(end := end);
    assert live == live[..n] + [live[n]] && live[n := j] == live[..n] + [j];
    assert texts == texts[..n] + [texts[n]] && texts[n := texts[n] + t] == texts[..n] + [texts[n] + t];
    AllCellsMore(live[..n], texts[..n], live[n], texts[n]);
    AllCellsMore(live[..n], texts[..n], j, texts[n] + t);
    assert Cells(j, texts[n] + t) == Cells(live[n], texts[n]) + Cells(more, t);
    assert AllCells(live[..n], texts[..n]) + (Cells(live[n], texts[n]) + Cells(more, t)) ==
           AllCells(live[..n], texts[..n]) + Cells(live[n], texts[n]) + Cells(more, t);
  }

  /** The commands of a span as they are in `ram`; a span that ends before it starts has none. */
  function Launched(ram: seq<byte>, j: Job): seq<Cell> {
    if j.current <= j.end then Cells(j, Commands(ram, j)) else []
  }

  /** Every live job would still paint what it was submitted with; those on the generation being filled lie below
      the part still to be written. */
  ghost predicate Safe(shadow: seq<seq<byte>>, live: seq<Job>, texts: seq<seq<byte>>, gen: nat, submitted: nat) {
    && |live| == |texts|
    && forall i | 0 <= i < |live| ::
         && live[i].gen < |shadow| && live[i].current <= live[i].end
         && texts[i] == Commands(shadow[live[i].gen], live[i])
         && (Reads(live[i], gen) ==> live[i].end <= submitted)
  }

  /** What rdpSnapshot does to the buffer of a generation: [a, b) becomes the copy. */
  function Snapped(sh: seq<byte>, a: nat, copy: seq<byte>): seq<byte>
    requires a + |copy| <= |sh|
  {
    sh[..a] + copy + sh[a + |copy|..]
  }

  /** The buffers after the copy has gone to that of generation g. */
  function Refilled(shadow: seq<seq<byte>>, g: nat, a: nat, copy: seq<byte>): seq<seq<byte>> {
    if copy != [] && g < |shadow| && a + |copy| <= |shadow[g]| then shadow[g := Snapped(shadow[g], a, copy)] else shadow
  }

  lemma Unfilled(shadow: seq<seq<byte>>, g: nat, a: nat)
    ensures Refilled(shadow, g, a, []) == shadow
  {
  }

  /** A copy beyond a job's end leaves its commands alone. */
  lemma SnapBeyond(sh: seq<byte>, a: nat, copy: seq<byte>, j: Job)
    requires a + |copy| <= |sh| && j.current <= j.end && (j.xbus || j.end <= a)
    ensures Commands(Snapped(sh, a, copy), j) == Commands(sh, j)
  {
  }

  lemma SafeSnap(shadow: seq<seq<byte>>, live: seq<Job>, texts: seq<seq<byte>>, gen: nat, a: nat, copy: seq<byte>)
    requires gen < |shadow| && a + |copy| <= |shadow[gen]| && Safe(shadow, live, texts, gen, a)
    ensures Safe(shadow[gen := Snapped(shadow[gen], a, copy)], live, texts, gen, a)
  {
    hide Commands, Snapped;
    var now := shadow[gen := Snapped(shadow[gen], a, copy)];
    forall i | 0 <= i < |live| ensures texts[i] == Commands(now[live[i].gen], live[i]) {
      if live[i].gen == gen { SnapBeyond(shadow[gen], a, copy, live[i]); }
    }
  }

  lemma SafeMore(shadow: seq<seq<byte>>, live: seq<Job>, texts: seq<seq<byte>>, j: Job)
    requires j.gen < |shadow| && j.current <= j.end && Safe(shadow, live, texts, j.gen, j.current)
    ensures Safe(shadow, live + [j], texts + [Commands(shadow[j.gen], j)], j.gen, j.end)
  {
    hide Commands;
  }

  lemma SafeJoined(shadow: seq<seq<byte>>, live: seq<Job>, texts: seq<seq<byte>>, j: Job)
    requires j.gen < |shadow| && j.current <= j.end && Safe(shadow, live, texts, j.gen, j.current)
    requires live != [] && var b := live[|live| - 1]; b.end == j.current && b.xbus == j.xbus && b.gen == j.gen
    ensures var n := |live| - 1;
            Safe(shadow, live[n := live[n].(end := j.end)], texts[n := texts[n] + Commands(shadow[j.gen], j)],
                 j.gen, j.end)
  {
    var b := live[|live| - 1];
    assert Commands(shadow[j.gen], b.(end := j.end)) == Commands(shadow[j.gen], b) + Commands(shadow[j.gen], j);
    hide Commands;
  }

  /** The live jobs with one more, or with a longer last one. */
  function Joined(live: seq<Job>, j: Job, joins: bool): seq<Job> {
    var n := |live| - 1;
    if joins && live != [] then live[n := live[n].(end := j.end)] else live + [j]
  }

  function JoinedTexts(texts: seq<seq<byte>>, t: seq<byte>, joins: bool): seq<seq<byte>> {
    var n := |texts| - 1;
    if joins && texts != [] then texts[n := texts[n] + t] else texts + [t]
  }

  /** Everything submitted is painted or alive, in order, and alive it is intact. */
  ghost predicate IntactIn(shadow: seq<seq<byte>>, live: seq<Job>, texts: seq<seq<byte>>, gen: nat, submitted: nat,
                           log: seq<Cell>, painted: seq<Cell>) {
    Safe(shadow, live, texts, gen, submitted) && log == painted + AllCells(live, texts)
  }

  /** A submission keeps every live job intact and adds its own commands at the end of them all. */
  lemma Recorded(shadow: seq<seq<byte>>, live: seq<Job>, texts: seq<seq<byte>>, j: Job, joins: bool, log: seq<Cell>,
                 painted: seq<Cell>)
    requires j.gen < |shadow| && j.current <= j.end && IntactIn(shadow, live, texts, j.gen, j.current, log, painted)
    requires joins ==> live != [] && var b := live[|live| - 1]; b.end == j.current && b.xbus == j.xbus && b.gen == j.gen
    ensures var t := Commands(shadow[j.gen], j);
            IntactIn(shadow, Joined(live, j, joins), JoinedTexts(texts, t, joins), j.gen, j.end, log + Cells(j, t), painted)
  {
    var t := Commands(shadow[j.gen], j);
    assert |live| == |texts|;
    if joins {
      SafeJoined(shadow, live, texts, j);
      LastText(shadow, live, texts, j.gen, j.current);
      hide Safe, AllCells, Cells, Commands;
      LastGrows(live, texts, j.end, t, j);
    } else {
      hide Safe, AllCells, Cells, Commands;
      SafeMore(shadow, live, texts, j);
      AllCellsMore(live, texts, j, t);
    }
    assert painted + (AllCells(live, texts) + Cells(j, t)) == painted + AllCells(live, texts) + Cells(j, t);
  }

  lemma LastText(shadow: seq<seq<byte>>, live: seq<Job>, texts: seq<seq<byte>>, gen: nat, a: nat)
    requires Safe(shadow, live, texts, gen, a) && live != []
    ensures |texts| == |live| && var b := live[|live| - 1]; b.current + |texts[|live| - 1]| == b.end
  {
  }

  lemma FirstReads(live: seq<Job>, busy: seq<nat>)
    requires live != [] && live[0].gen < |busy| && forall g | 0 <= g < |busy| :: busy[g] == Readers(live, g)
    ensures live[0].xbus || busy[live[0].gen] > 0
    ensures var now := if live[0].xbus then busy else busy[live[0].gen := busy[live[0].gen] - 1];
            forall g | 0 <= g < |busy| :: now[g] == Readers(live[1..], g)
  {
    forall g | 0 <= g < |busy|
      ensures Readers(live, g) == Readers(live[1..], g) + if Reads(live[0], g) then 1 else 0
    {
    }
  }

  // ---- what is still to be painted ----

  function BufferOf(shadow: seq<seq<byte>>, g: nat): seq<byte> {
    if g < |shadow| then shadow[g] else []
  }

  /** What the live jobs would paint from the buffers as they are. */
  function ToPaint(shadow: seq<seq<byte>>, live: seq<Job>): seq<Cell>
    decreases |live|
  {
    if live == [] then []
    else
      var n := |live| - 1;
      ToPaint(shadow, live[..n]) + Launched(BufferOf(shadow, live[n].gen), live[n])
  }

  lemma {:induction false} ToPaintFirst(shadow: seq<seq<byte>>, j: Job, rest: seq<Job>)
    ensures ToPaint(shadow, [j] + rest) == Launched(BufferOf(shadow, j.gen), j) + ToPaint(shadow, rest)
    decreases |rest|
  {
    hide Launched, BufferOf;
    if rest == [] {
      assert [j] + rest == [j] && [j][..0] == [];
    } else {
      var n := |rest| - 1;
      ToPaintFirst(shadow, j, rest[..n]);
      assert ([j] + rest)[..n + 1] == [j] + rest[..n] && ([j] + rest)[n + 1] == rest[n];
      assert Launched(BufferOf(shadow, j.gen), j) + (ToPaint(shadow, rest[..n]) + Launched(BufferOf(shadow, rest[n].gen), rest[n])) ==
             Launched(BufferOf(shadow, j.gen), j) + ToPaint(shadow, rest[..n]) + Launched(BufferOf(shadow, rest[n].gen), rest[n]);
    }
  }

  /** The copy brings back, or leaves alone, every byte of generation g's buffer that a live job still reads. */
  ghost predicate Undisturbed(shadow: seq<seq<byte>>, live: seq<Job>, g: nat, a: nat, copy: seq<byte>) {
    forall i, x | 0 <= i < |live| && Reads(live[i], g) && live[i].current <= x < live[i].end && a <= x < a + |copy| ::
      copy[x - a] == ReadAt(BufferOf(shadow, g), x)
  }

  lemma LaunchedAlike(sh: seq<byte>, now: seq<byte>, j: Job)
    ensures |Launched(sh, j)| == |Launched(now, j)|
    ensures Launched(sh, j) == Launched(now, j) <==>
            forall x | j.current <= x < j.end :: j.xbus || ReadAt(sh, x) == ReadAt(now, x)
  {
    var a, b := Launched(sh, j), Launched(now, j);
    if a == b {
      forall x | j.current <= x < j.end ensures j.xbus || ReadAt(sh, x) == ReadAt(now, x) {
        assert a[x - j.current] == b[x - j.current];
      }
    }
    if forall x | j.current <= x < j.end :: j.xbus || ReadAt(sh, x) == ReadAt(now, x) {
      forall k | 0 <= k < |a| ensures a[k] == b[k] {
        assert j.xbus || ReadAt(sh, j.current + k) == ReadAt(now, j.current + k);
      }
    }
  }

  /** Of one job: it paints the same before and after the copy exactly if the copy does not disturb it. */
  lemma JobUndisturbed(shadow: seq<seq<byte>>, j: Job, g: nat, a: nat, copy: seq<byte>)
    requires g < |shadow| && (copy == [] || a + |copy| <= |shadow[g]|)
    ensures var now := Refilled(shadow, g, a, copy);
            Launched(BufferOf(now, j.gen), j) == Launched(BufferOf(shadow, j.gen), j) <==> Undisturbed(shadow, [j], g, a, copy)
  {
    var now := Refilled(shadow, g, a, copy);
    var sh, sh2 := BufferOf(shadow, j.gen), BufferOf(now, j.gen);
    LaunchedAlike(sh, sh2, j);
    hide Launched;
    if Reads(j, g) && copy != [] {
      forall x: nat ensures ReadAt(sh2, x) == if a <= x < a + |copy| then copy[x - a] else ReadAt(sh, x) { }
      if Undisturbed(shadow, [j], g, a, copy) {
        forall x | j.current <= x < j.end ensures ReadAt(sh, x) == ReadAt(sh2, x) {
          assert a <= x < a + |copy| ==> copy[x - a] == ReadAt(BufferOf(shadow, g), x) by { assert [j][0] == j; }
        }
      }
      if forall x | j.current <= x < j.end :: j.xbus || ReadAt(sh, x) == ReadAt(sh2, x) {
        forall i, x | 0 <= i < 1 && Reads([j][i], g) && [j][i].current <= x < [j][i].end && a <= x < a + |copy|
          ensures copy[x - a] == ReadAt(BufferOf(shadow, g), x)
        {
          assert ReadAt(sh, x) == ReadAt(sh2, x);
        }
      }
    } else {
      assert j.xbus || sh2 == sh;
    }
  }

  lemma {:induction false} AllUndisturbed(shadow: seq<seq<byte>>, live: seq<Job>, g: nat, a: nat, copy: seq<byte>)
    requires g < |shadow| && (copy == [] || a + |copy| <= |shadow[g]|)
    ensures |ToPaint(Refilled(shadow, g, a, copy), live)| == |ToPaint(shadow, live)|
    ensures ToPaint(Refilled(shadow, g, a, copy), live) == ToPaint(shadow, live) <==> Undisturbed(shadow, live, g, a, copy)
    decreases |live|
  {
    hide Launched, Refilled, BufferOf;
    if live != [] {
      var n := |live| - 1;
      var init, j := live[..n], live[n];
      AllUndisturbed(shadow, init, g, a, copy);
      JobUndisturbed(shadow, j, g, a, copy);
      var now := Refilled(shadow, g, a, copy);
      LaunchedAlike(BufferOf(shadow, j.gen), BufferOf(now, j.gen), j);
      BothParts(ToPaint(now, init), ToPaint(shadow, init), Launched(BufferOf(now, j.gen), j), Launched(BufferOf(shadow, j.gen), j));
      LastOf(shadow, live, g, a, copy);
    }
  }

  lemma LastOf(shadow: seq<seq<byte>>, live: seq<Job>, g: nat, a: nat, copy: seq<byte>)
    requires live != []
    ensures var n := |live| - 1;
            Undisturbed(shadow, live, g, a, copy) <==>
            Undisturbed(shadow, live[..n], g, a, copy) && Undisturbed(shadow, [live[n]], g, a, copy)
  {
    hide BufferOf, Reads;
    var n := |live| - 1;
    if Undisturbed(shadow, live, g, a, copy) {
      assert forall i | 0 <= i < n :: live[..n][i] == live[i];
      assert [live[n]][0] == live[n];
    }
    if Undisturbed(shadow, live[..n], g, a, copy) && Undisturbed(shadow, [live[n]], g, a, copy) {
      forall i, x | 0 <= i < |live| && Reads(live[i], g) && live[i].current <= x < live[i].end && a <= x < a + |copy|
        ensures copy[x - a] == ReadAt(BufferOf(shadow, g), x)
      {
        if i < n { assert live[..n][i] == live[i]; } else { assert [live[n]][0] == live[i]; }
      }
    }
  }

  lemma BothParts(x: seq<Cell>, y: seq<Cell>, u: seq<Cell>, v: seq<Cell>)
    requires |x| == |y| && |u| == |v|
    ensures x + u == y + v <==> x == y && u == v
  {
    if x + u == y + v {
      assert (x + u)[..|x|] == x && (y + v)[..|y|] == y;
      assert (x + u)[|x|..] == u && (y + v)[|y|..] == v;
    }
  }

  /** A job made longer paints what it painted and the new span, unless the two are opposed. */
  lemma LongerJob(sh: seq<byte>, b: Job, j: Job)
    requires b.end == j.current && b.xbus == j.xbus
    ensures Launched(sh, b.(end := j.end)) == Launched(sh, b) + Launched(sh, j) <==> !Against(b, j)
    ensures Against(b, j) ==> |Launched(sh, b.(end := j.end))| != |Launched(sh, b) + Launched(sh, j)|
  {
    if !Against(b, j) {
      assert Launched(sh, b.(end := j.end)) == Launched(sh, b) + Launched(sh, j);
    }
  }

  /** A submission leaves what is still to be painted as it was and adds its own span at the end, if and only if it does
      not run against the job that it lengthens and its copy does not disturb a live one. */
  lemma SubmissionKeeps(shadow: seq<seq<byte>>, live: seq<Job>, j: Job, joins: bool, copy: seq<byte>)
    requires j.gen < |shadow| && (copy == [] || j.current + |copy| <= |shadow[j.gen]|)
    requires joins ==> live != [] && var b := live[|live| - 1]; b.end == j.current && b.xbus == j.xbus && b.gen == j.gen
    ensures var now := Refilled(shadow, j.gen, j.current, copy);
            ToPaint(now, Joined(live, j, joins)) == ToPaint(shadow, live) + Launched(BufferOf(now, j.gen), j) <==>
            !(joins && Against(live[|live| - 1], j)) && Undisturbed(shadow, live, j.gen, j.current, copy)
  {
    var now := Refilled(shadow, j.gen, j.current, copy);
    AllUndisturbed(shadow, live, j.gen, j.current, copy);
    hide Launched, Refilled, BufferOf, Undisturbed, Against, ToPaint, Joined;
    var mine := Launched(BufferOf(now, j.gen), j);
    JoinedToPaint(now, live, j, joins);
    BothParts(ToPaint(now, live), ToPaint(shadow, live), mine, mine);
  }

  /** With the buffers as they are, the longer list of jobs paints the new span last, unless it is opposed. */
  lemma JoinedToPaint(now: seq<seq<byte>>, live: seq<Job>, j: Job, joins: bool)
    requires joins ==> live != [] && var b := live[|live| - 1]; b.end == j.current && b.xbus == j.xbus && b.gen == j.gen
    ensures var both := ToPaint(now, live) + Launched(BufferOf(now, j.gen), j);
            if joins && Against(live[|live| - 1], j) then |ToPaint(now, Joined(live, j, joins))| != |both|
            else ToPaint(now, Joined(live, j, joins)) == both
  {
    hide Launched, BufferOf, Against;
    var sh := BufferOf(now, j.gen);
    if joins {
      var n := |live| - 1;
      var b := live[n];
      var longer := live[n := b.(end := j.end)];
      assert longer[..n] == live[..n];
      LongerJob(sh, b, j);
      var p := ToPaint(now, live[..n]);
      assert p + Launched(sh, b) + Launched(sh, j) == p + (Launched(sh, b) + Launched(sh, j));
    } else {
      assert (live + [j])[..|live|] == live;
    }
  }

  class Rdp {
    const gens: nat
    const size: nat
    var shadow: seq<seq<byte>>
    var rdpGen: nat
    var submitted: nat
    var queue: seq<Job>
    var rdpGenBusy: seq<nat>
    var dpPending: nat
    var rdpBusy: bool
    var barrier: bool          // bit 2 of rcpPend
    var rdpWaiting: bool
    var pc: Pc
    var wake: bool             // the producer has left the lock and has still to notify
    // The commands each live job was submitted with; all that was ever submitted, and all that was painted; and
    // whether the end of the list has never moved backwards.
    ghost var texts: seq<seq<byte>>
    ghost var log: seq<Cell>
    ghost var painted: seq<Cell>
    ghost var forward: bool

    /** The job being painted and those that wait. */
    ghost function Live(): seq<Job>
      reads `pc, `queue
    {
      if pc.Painting? then [pc.job] + queue else queue
    }

    /** What will have been painted when everything alive has been. */
    ghost function Owed(): seq<Cell>
      reads `pc, `queue, `shadow, `painted
    {
      painted + ToPaint(shadow, Live())
    }

    ghost predicate Counted()
      reads `pc, `queue, `rdpGenBusy, `dpPending, `rdpBusy, `barrier, `rdpGen
    {
      && 3 <= gens && |rdpGenBusy| == gens && rdpGen < gens
      && dpPending == |Live()| && rdpBusy == (Live() != []) && barrier == (Live() != [])
      && (forall g | 0 <= g < gens :: rdpGenBusy[g] == Readers(Live(), g))
      && forall i | 0 <= i < |Live()| :: Live()[i].gen < gens
    }

    /** The worker never sleeps on a queue with work in it unless a notification is on its way. */
    ghost predicate Awake()
      reads `pc, `queue, `rdpWaiting, `wake
    {
      rdpWaiting == (pc.Asleep? || pc.Roused?) && (pc.Asleep? && queue != [] ==> wake)
    }

    ghost predicate Intact()
      reads `pc, `queue, `shadow, `texts, `rdpGen, `submitted, `log, `painted
    {
      IntactIn(shadow, Live(), texts, rdpGen, submitted, log, painted)
    }

    ghost predicate Valid()
      reads this
    {
      && Counted() && Awake() && |shadow| == gens && (forall g | 0 <= g < gens :: |shadow[g]| == size)
      && (forward ==> Intact())
    }

    constructor (n: nat, bytes: nat)
      requires 3 <= n <= 8
      ensures Valid() && forward && log == [] && painted == [] && pc == Idle && queue == [] && !rdpWaiting && !wake
      ensures gens == n && size == bytes && rdpGen == 0 && submitted == 0 && Live() == []
    {
      gens, size, rdpGen, submitted := n, bytes, 0, 0;
      shadow := seq(n, _ => seq(bytes, _ => 0));
      queue, rdpGenBusy := [], seq(n, _ => 0);
      dpPending, rdpBusy, barrier, rdpWaiting, pc, wake := 0, false, false, false, Idle, false;
      texts, log, painted, forward := [], [], [], true;
    }

    // ---- the worker ----

    /** It takes the lock: a job if there is one, or it goes to sleep, the lock released. */
    method Enter()
      requires Valid() && (pc.Idle? || pc.Roused?)
      modifies this`pc, this`queue, this`rdpWaiting
      ensures Valid() && Live() == old(Live()) && Owed() == old(Owed()) && (pc.Asleep? <==> old(queue) == [])
      ensures old(queue) != [] ==> pc == Painting(old(queue)[0]) && queue == old(queue)[1..]
      ensures rdpWaiting == pc.Asleep?
    {
      hide Readers, Safe, AllCells;
      rdpWaiting := true;
      if queue == [] {
        pc := Asleep;
      } else {
        rdpWaiting := false;
        assert queue == [queue[0]] + queue[1..];
        pc, queue := Painting(queue[0]), queue[1..];
      }
    }

    /** A notification, or none at all: condition variables wake by themselves too. */
    method Rouse()
      requires Valid()
      modifies this`pc
      ensures Valid() && !pc.Asleep? && Live() == old(Live()) && Owed() == old(Owed())
    {
      if pc.Asleep? { pc := Roused; }
    }

    /** The job being painted leaves the books. */
    method LetGo()
      requires Counted() && Awake() && pc.Painting?
      modifies this`pc, this`dpPending, this`rdpGenBusy, this`rdpBusy, this`barrier
      ensures Counted() && Awake() && pc.Idle?
    {
      var job := pc.job;
      ghost var live := Live();
      assert live[0] == job && live[1..] == queue;
      FirstReads(live, rdpGenBusy);
      hide Readers;
      dpPending := dpPending - 1;
      if !job.xbus { rdpGenBusy := rdpGenBusy[job.gen := rdpGenBusy[job.gen] - 1]; }
      if queue == [] { rdpBusy, barrier := false, false; }
      pc := Idle;
      assert forall i | 0 <= i < |queue| :: live[i + 1] == queue[i];
    }

    /** The job is painted from the buffer as it is now, and let go. */
    method Finish()
      requires Valid() && pc.Painting?
      modifies this`pc, this`dpPending, this`rdpGenBusy, this`rdpBusy, this`barrier, this`texts, this`painted
      ensures Valid() && pc.Idle? && Live() == old(Live())[1..] && old(pc).job.gen < |shadow|
      ensures painted == old(painted) + Launched(shadow[old(pc).job.gen], old(pc).job) && Owed() == old(Owed())
    {
      hide Safe, IntactIn, Awake, AllCells, Cells, Commands, Readers, ToPaint, Launched;
      ghost var job, done := pc.job, painted;
      OwedFirst();
      assert Live()[1..] == queue && Live()[0] == job;
      hide Counted;
      if forward { FirstIsIntact(); }
      LetGo();
      painted := painted + Launched(shadow[job.gen], job);
      if forward { texts := texts[1..]; }
    }

    lemma OwedFirst()
      requires pc.Painting? && Counted() && |shadow| == gens
      ensures pc.job.gen < gens
      ensures Owed() == painted + Launched(shadow[pc.job.gen], pc.job) + ToPaint(shadow, queue)
    {
      hide ToPaint, Launched, Readers;
      assert Live()[0] == pc.job;
      ToPaintFirst(shadow, pc.job, queue);
      assert painted + (Launched(shadow[pc.job.gen], pc.job) + ToPaint(shadow, queue)) ==
             painted + Launched(shadow[pc.job.gen], pc.job) + ToPaint(shadow, queue);
    }

    lemma FirstIsIntact()
      requires Valid() && Intact() && pc.Painting?
      ensures texts != [] && pc.job.gen < |shadow|
      ensures IntactIn(shadow, queue, texts[1..], rdpGen, submitted, log, painted + Launched(shadow[pc.job.gen], pc.job))
    {
      hide Commands, Cells;
      var live := Live();
      assert live[0] == pc.job && live[1..] == queue;
      assert painted + (Cells(pc.job, texts[0]) + AllCells(queue, texts[1..])) ==
             painted + Cells(pc.job, texts[0]) + AllCells(queue, texts[1..]);
    }

    // ---- the producer ----

    /** How many bytes of the span lie inside RDRAM. */
    function Window(end: nat): nat
      reads `submitted
    {
      var b := if end > size then size else end;
      if submitted < b then b - submitted else 0
    }

    /** The current buffer holds the copy from address a on. */
    ghost predicate Holds(a: nat, copy: seq<byte>)
      reads `shadow, `rdpGen
    {
      copy != [] ==> rdpGen < |shadow| && a + |copy| <= |shadow[rdpGen]| && shadow[rdpGen][a..a + |copy|] == copy
    }

    /** rdpSnapshot: the span goes to the buffer of the current generation. */
    method Snap(end: nat, copy: seq<byte>)
      requires Valid() && |copy| == Window(end)
      modifies this`shadow
      ensures Valid() && Holds(submitted, copy)
      ensures shadow == Refilled(old(shadow), rdpGen, submitted, copy)
    {
      hide Safe, AllCells, Counted, Awake;
      if |copy| == 0 { return; }
      CountedGen();
      if forward { SafeSnap(shadow, Live(), texts, rdpGen, submitted, copy); }
      shadow := shadow[rdpGen := Snapped(shadow[rdpGen], submitted, copy)];
    }

    lemma CountedGen()
      requires Counted()
      ensures rdpGen < gens && (queue != [] ==> Live() != [] && Live()[|Live()| - 1] == queue[|queue| - 1])
    {
    }

    /** The job goes behind the others, or lengthens the last one that waits. */
    method Push(j: Job)
      requires Counted() && Awake() && !wake && j.gen == rdpGen
      modifies this`queue, this`rdpGenBusy, this`dpPending, this`rdpBusy, this`barrier, this`wake
      ensures Counted() && Awake() && wake == rdpWaiting && queue == Enqueue(old(queue), j)
      ensures Live() == Joined(old(Live()), j, Joins(old(queue), j))
    {
      hide Readers;
      ghost var live := Live();
      if Joins(queue, j) {
        forall g | 0 <= g < gens ensures Readers(live[|live| - 1 := live[|live| - 1].(end := j.end)], g) == rdpGenBusy[g] {
          LastReads(live, j.end, g);
        }
        queue := queue[|queue| - 1 := queue[|queue| - 1].(end := j.end)];
        assert Live() == live[|live| - 1 := live[|live| - 1].(end := j.end)];
      } else {
        forall g | 0 <= g < gens ensures Readers(live + [j], g) == rdpGenBusy[g] + if Reads(j, g) then 1 else 0 {
          ReadersMore(live, j, g);
        }
        queue := queue + [j];
        assert Live() == live + [j];
        if !j.xbus { rdpGenBusy := rdpGenBusy[rdpGen := rdpGenBusy[rdpGen] + 1]; }
        barrier := true;
        dpPending := dpPending + 1;
      }
      rdpBusy := true;
      wake := rdpWaiting;
    }

    /** The span goes on the books, its commands being in the buffer. */
    method Book(j: Job)
      requires Valid() && !wake && j.gen == rdpGen && j.current == submitted
      modifies this`queue, this`rdpGenBusy, this`dpPending, this`rdpBusy, this`barrier, this`wake
      modifies this`submitted, this`texts, this`log, this`forward
      ensures Valid() && submitted == j.end && wake == rdpWaiting && queue == Enqueue(old(queue), j)
      ensures Live() == Joined(old(Live()), j, Joins(old(queue), j))
      ensures forward == (old(forward) && j.current <= j.end)
      ensures rdpGen < |shadow| && log == old(log) + Launched(shadow[rdpGen], j)
    {
      hide Safe, IntactIn, AllCells, Cells, Commands, Counted, Awake, Joined, Launched, Enqueue;
      CountedGen();
      ghost var live, joins := Live(), Joins(queue, j);
      if joins { JoinsLast(j); }
      Push(j);
      Note(j, live, joins);
    }

    /** The list has been extended, and its commands are on the record. */
    method Note(j: Job, ghost live: seq<Job>, ghost joins: bool)
      requires rdpGen < |shadow| && j.gen == rdpGen && j.current == submitted && Live() == Joined(live, j, joins)
      requires forward ==> IntactIn(shadow, live, texts, rdpGen, submitted, log, painted)
      requires joins ==> live != [] && var b := live[|live| - 1]; b.end == j.current && b.xbus == j.xbus && b.gen == j.gen
      modifies this`submitted, this`texts, this`log, this`forward
      ensures submitted == j.end && forward == (old(forward) && j.current <= j.end)
      ensures log == old(log) + Launched(shadow[rdpGen], j) && (forward ==> Intact())
    {
      hide Safe, IntactIn, AllCells, Cells, Commands, Joined;
      forward := forward && submitted <= j.end;
      if forward { Recorded(shadow, live, texts, j, joins, log, painted); }
      log := log + Launched(shadow[rdpGen], j);
      if forward { texts := JoinedTexts(texts, Commands(shadow[rdpGen], j), joins); }
      submitted := j.end;
    }

    lemma JoinsLast(j: Job)
      requires Counted() && Joins(queue, j)
      ensures Live() != [] && var b := Live()[|Live()| - 1]; b.end == j.current && b.xbus == j.xbus && b.gen == j.gen
    {
    }

    /** DPC_END: the list goes on up to `end`. The span is copied, joined to the last waiting one or queued, and the
        worker is to be notified if it waits. `copy` is what rdpSnapshot reads. */
    method Submit(end: nat, xbus: bool, copy: seq<byte>)
      requires Valid() && !wake && |copy| == if xbus then 0 else Window(end)
      modifies this`shadow, this`queue, this`rdpGenBusy, this`dpPending, this`rdpBusy, this`barrier, this`wake
      modifies this`submitted, this`texts, this`log, this`forward
      ensures Valid() && submitted == end && wake == rdpWaiting
      ensures Live() == Joined(old(Live()), Job(old(submitted), end, xbus, rdpGen),
                               Joins(old(queue), Job(old(submitted), end, xbus, rdpGen)))
      ensures queue == Enqueue(old(queue), Job(old(submitted), end, xbus, rdpGen))
      ensures forward == (old(forward) && old(submitted) <= end)
      ensures rdpGen < |shadow| && log == old(log) + Launched(shadow[rdpGen], Job(old(submitted), end, xbus, rdpGen))
      ensures Holds(old(submitted), copy)
      ensures shadow == Refilled(old(shadow), rdpGen, old(submitted), copy)
    {
      hide Valid, Launched, Enqueue, Refilled;
      Unfilled(shadow, rdpGen, submitted);
      if !xbus { Snap(end, copy); }
      Book(Job(submitted, end, xbus, rdpGen));
    }

    /** The other half of a submission, outside the lock. */
    method Notify()
      requires Valid()
      modifies this`pc, this`wake
      ensures Valid() && !wake && Live() == old(Live()) && Owed() == old(Owed())
    {
      hide Safe, AllCells, Counted, ToPaint;
      if wake {
        Rouse();
        wake := false;
      }
    }

    /** rdpDrain: with no notification outstanding, the worker gets through everything. */
    method Drain()
      requires Valid() && !wake
      modifies this`pc, this`queue, this`rdpWaiting, this`dpPending, this`rdpGenBusy, this`rdpBusy, this`barrier
      modifies this`texts, this`painted
      ensures Valid() && Live() == [] && painted == Owed() == old(Owed())
    {
      hide Safe, AllCells, Counted, Launched;
      while queue != [] || pc.Painting?
        invariant Valid() && Owed() == old(Owed())
        decreases |queue|, pc.Painting?
      {
        if pc.Painting? { Finish(); } else { Enter(); }
      }
    }

    /** A fresh START installs another list: the lowest generation that nobody reads, other than the current one; if
        there is none, the next one, once everything has been painted. */
    method FreshStart(start: nat)
      requires Valid() && !wake
      modifies this`pc, this`queue, this`rdpWaiting, this`dpPending, this`rdpGenBusy, this`rdpBusy, this`barrier
      modifies this`texts, this`painted, this`rdpGen, this`submitted
      ensures Valid() && submitted == start && rdpGen != old(rdpGen) && Readers(Live(), rdpGen) == 0
      ensures Owed() == old(Owed())
      ensures forall g | 0 <= g < rdpGen :: g == old(rdpGen) || old(Readers(Live(), g)) > 0 || Live() == []
    {
      hide Safe, AllCells, Readers, Cells, Commands, ToPaint, Launched;
      var g := 0;
      while g < gens && (g == rdpGen || rdpGenBusy[g] != 0)
        invariant g <= gens && forall k | 0 <= k < g :: k == rdpGen || rdpGenBusy[k] != 0
      {
        g := g + 1;
      }
      if g == gens {
        Drain();
        NoneRead((rdpGen + 1) % gens);
        g := (rdpGen + 1) % gens;
      }
      if forward { NobodyReads(shadow, Live(), texts, rdpGen, submitted, g, start); }
      rdpGen, submitted := g, start;
    }
  }

  lemma NoneRead(g: nat)
    ensures Readers([], g) == 0
  {
  }

  lemma NobodyReads(shadow: seq<seq<byte>>, live: seq<Job>, texts: seq<seq<byte>>, gen: nat, a: nat, g: nat, start: nat)
    requires Safe(shadow, live, texts, gen, a) && Readers(live, g) == 0
    ensures Safe(shadow, live, texts, g, start)
  {
    hide Commands, Readers;
    forall i | 0 <= i < |live| ensures !Reads(live[i], g) { NoReaders(live, g, i); }
  }

  // ---- whole runs ----

  /** Steps of the producer (a fresh START, an END with RDRAM as it is then, the outstanding notification) and of the
      worker (its next step, or a wake-up out of nowhere), in any order. */
  datatype Step = Start(start: nat) | End(end: nat, xbus: bool, ram: seq<byte>) | Tell | Work | Stir

  /** Where the list stands after the steps. */
  function Stands(steps: seq<Step>): nat
    decreases |steps|
  {
    if steps == [] then 0
    else
      match steps[|steps| - 1]
      case Start(start) => start
      case End(end, _, _) => end
      case _ => Stands(steps[..|steps| - 1])
  }

  /** Everything the guest launched, in order, as it was then. */
  function Launches(steps: seq<Step>): seq<Cell>
    decreases |steps|
  {
    if steps == [] then []
    else
      var before := steps[..|steps| - 1];
      match steps[|steps| - 1]
      case End(end, xbus, ram) => Launches(before) + Launched(ram, Job(Stands(before), end, xbus, 0))
      case _ => Launches(before)
  }

  /** No END is behind the point that the list had reached. */
  ghost predicate Forward(steps: seq<Step>)
    decreases |steps|
  {
    steps == [] ||
    var before := steps[..|steps| - 1];
    var step := steps[|steps| - 1];
    Forward(before) && (step.End? ==> Stands(before) <= step.end)
  }

  /** The buffer of a generation gives the commands that RDRAM held. */
  lemma BufferIsRam(sh: seq<byte>, ram: seq<byte>, j: Job, g: nat, n: nat)
    requires |sh| == |ram|
    requires j.xbus || var b := if j.end > |ram| then |ram| else j.end; n == if j.current < b then b - j.current else 0
    requires !j.xbus && n > 0 ==> sh[j.current..j.current + n] == ram[j.current..j.current + n]
    ensures Launched(sh, j) == Launched(ram, j.(gen := g))
  {
    if j.current <= j.end {
      forall k | 0 <= k < j.end - j.current ensures CommandAt(sh, j, k) == CommandAt(ram, j, k) {
        if !j.xbus && j.current + k < |ram| {
          assert sh[j.current..j.current + n][k] == ram[j.current..j.current + n][k];
        }
      }
    }
  }

  /** The part of RDRAM that an END copies. */
  function CopyOf(a: nat, end: nat, xbus: bool, ram: seq<byte>): seq<byte> {
    var b := if end > |ram| then |ram| else end;
    if xbus || a >= b then [] else ram[a..b]
  }

  /** What the producer and the worker have done so far: what is owed, and what an END meets. */
  datatype View = View(owed: seq<Cell>, shadow: seq<seq<byte>>, live: seq<Job>, queue: seq<Job>, gen: nat, at: nat)

  ghost function Shows(r: Rdp): View
    reads r
  {
    View(r.Owed(), r.shadow, r.Live(), r.queue, r.rdpGen, r.submitted)
  }

  /** The span of an END neither runs against the one that it lengthens nor has its copy disturb a live job. */
  ghost predicate Clean(v: View, e: Step)
    requires e.End?
  {
    var j := Job(v.at, e.end, e.xbus, v.gen);
    && !(Joins(v.queue, j) && v.live != [] && Against(v.live[|v.live| - 1], j))
    && Undisturbed(v.shadow, v.live, v.gen, v.at, CopyOf(v.at, e.end, e.xbus, e.ram))
  }

  /** Only an END changes what is owed, and it adds its own commands, as RDRAM holds them, if and only if it is clean. */
  ghost predicate Owes(v: View, e: Step, w: View) {
    if e.End? then w.owed == v.owed + Launched(e.ram, Job(v.at, e.end, e.xbus, 0)) <==> Clean(v, e) else w.owed == v.owed
  }

  method DoEnd(r: Rdp, e: Step)
    requires r.Valid() && !r.wake && e.End? && |e.ram| == r.size
    modifies r
    ensures r.Valid() && r.submitted == e.end && r.forward == (old(r.forward) && old(r.submitted) <= e.end)
    ensures r.log == old(r.log) + Launched(e.ram, Job(old(r.submitted), e.end, e.xbus, 0))
    ensures Owes(old(Shows(r)), e, Shows(r))
  {
    var copy := CopyOf(r.submitted, e.end, e.xbus, e.ram);
    ghost var painted, v := r.painted, Shows(r);
    MayJoin(r, e);
    hide Rdp.Valid, Enqueue, Launched, Refilled, Joins, Joined, Rdp.Live, ToPaint, Owes;
    r.Submit(e.end, e.xbus, copy);
    Generations(r);
    EndOwes(painted, v, e, r.shadow, r.Live(), Shows(r));
  }

  /** What Submit relies on. */
  lemma MayJoin(r: Rdp, e: Step)
    requires r.Valid() && e.End? && |e.ram| == r.size
    ensures r.rdpGen < |r.shadow| && |r.shadow[r.rdpGen]| == r.size
    ensures |CopyOf(r.submitted, e.end, e.xbus, e.ram)| == if e.xbus then 0 else r.Window(e.end)
    ensures Lengthens(Shows(r), e)
  {
    hide Readers, Safe, AllCells, ToPaint;
  }

  /** If the span of an END joins a waiting one, that is the last live one. */
  ghost predicate Lengthens(v: View, e: Step)
    requires e.End?
  {
    var j := Job(v.at, e.end, e.xbus, v.gen);
    Joins(v.queue, j) ==>
      v.live != [] && var b := v.live[|v.live| - 1]; b.end == j.current && b.xbus == j.xbus && b.gen == j.gen
  }

  lemma CopyFits(a: nat, e: Step)
    requires e.End?
    ensures var copy := CopyOf(a, e.end, e.xbus, e.ram); copy == [] || a + |copy| <= |e.ram|
  {
  }

  /** With the copy in the buffer, the span reads what RDRAM holds. */
  lemma CopyIsRead(v: View, e: Step, now: seq<seq<byte>>)
    requires e.End? && v.gen < |v.shadow| == |now| && |e.ram| == |v.shadow[v.gen]| == |now[v.gen]|
    requires now == Refilled(v.shadow, v.gen, v.at, CopyOf(v.at, e.end, e.xbus, e.ram))
    ensures BufferOf(now, v.gen) == now[v.gen]
    ensures Launched(now[v.gen], Job(v.at, e.end, e.xbus, v.gen)) == Launched(e.ram, Job(v.at, e.end, e.xbus, 0))
  {
    hide Launched;
    BufferIsRam(now[v.gen], e.ram, Job(v.at, e.end, e.xbus, v.gen), 0, |CopyOf(v.at, e.end, e.xbus, e.ram)|);
  }

  /** What an END adds to what is owed. */
  lemma EndOwes(painted: seq<Cell>, v: View, e: Step, now: seq<seq<byte>>, live: seq<Job>, w: View)
    requires e.End? && v.gen < |v.shadow| == |now| && |e.ram| == |v.shadow[v.gen]| == |now[v.gen]| && Lengthens(v, e)
    requires v.owed == painted + ToPaint(v.shadow, v.live) && w.owed == painted + ToPaint(now, live)
    requires now == Refilled(v.shadow, v.gen, v.at, CopyOf(v.at, e.end, e.xbus, e.ram))
    requires live == Joined(v.live, Job(v.at, e.end, e.xbus, v.gen), Joins(v.queue, Job(v.at, e.end, e.xbus, v.gen)))
    ensures Owes(v, e, w)
    ensures Launched(now[v.gen], Job(v.at, e.end, e.xbus, v.gen)) == Launched(e.ram, Job(v.at, e.end, e.xbus, 0))
  {
    var j, copy := Job(v.at, e.end, e.xbus, v.gen), CopyOf(v.at, e.end, e.xbus, e.ram);
    hide ToPaint, Refilled, Launched, Joined, Joins, Undisturbed, Against, BufferOf;
    CopyIsRead(v, e, now);
    CopyFits(v.at, e);
    SubmissionKeeps(v.shadow, v.live, j, Joins(v.queue, j), copy);
    SameAfter(painted, ToPaint(v.shadow, v.live), Launched(e.ram, j.(gen := 0)), ToPaint(now, live));
  }

  lemma SameAfter(p: seq<Cell>, x: seq<Cell>, y: seq<Cell>, z: seq<Cell>)
    ensures p + z == p + x + y <==> z == x + y
  {
    assert p + x + y == p + (x + y);
    assert (p + z)[|p|..] == z && (p + (x + y))[|p|..] == x + y;
  }

  lemma Generations(r: Rdp)
    requires r.Valid()
    ensures r.rdpGen < |r.shadow| && |r.shadow[r.rdpGen]| == r.size
  {
  }

  method DoWork(r: Rdp)
    requires r.Valid()
    modifies r
    ensures r.Valid() && r.submitted == old(r.submitted) && r.log == old(r.log) && r.forward == old(r.forward)
    ensures r.wake == old(r.wake) && r.Owed() == old(r.Owed())
  {
    hide ToPaint, Launched;
    if r.pc.Painting? { r.Finish(); } else if !r.pc.Asleep? { r.Enter(); }
  }

  method DoStep(r: Rdp, e: Step)
    requires r.Valid() && (e.End? ==> |e.ram| == r.size)
    modifies r
    ensures r.Valid() && Owes(old(Shows(r)), e, Shows(r))
    ensures r.submitted == (if e.Start? then e.start else if e.End? then e.end else old(r.submitted))
    ensures r.forward == (old(r.forward) && (e.End? ==> old(r.submitted) <= e.end))
    ensures r.log == old(r.log) + if e.End? then Launched(e.ram, Job(old(r.submitted), e.end, e.xbus, 0)) else []
  {
    hide Rdp.Valid, Launched, Rdp.Live, ToPaint, Clean;
    assert r.log + [] == r.log;
    ghost var was := Shows(r);
    if (e.Start? || e.End? || e.Tell?) && r.wake { r.Notify(); }
    assert Shows(r) == was;
    match e {
      case Start(start) => r.FreshStart(start);
      case End(_, _, _) => DoEnd(r, e);
      case Tell =>
      case Work => DoWork(r);
      case Stir => r.Rouse();
    }
  }

  /** Everything launched so far is what is owed, from first to last. */
  ghost predicate AllOwed(steps: seq<Step>, views: seq<View>)
    requires |views| == |steps| + 1
  {
    forall i: nat | i <= |steps| :: views[i].owed == Launches(steps[..i])
  }

  ghost predicate AllClean(steps: seq<Step>, views: seq<View>)
    requires |views| == |steps| + 1
  {
    forall i: nat | i < |steps| && steps[i].End? :: Clean(views[i], steps[i])
  }

  /** A run, view by view. */
  ghost predicate Runs(steps: seq<Step>, views: seq<View>)
    requires |views| == |steps| + 1
  {
    && views[0].owed == []
    && forall i: nat | i < |steps| :: views[i].at == Stands(steps[..i]) && Owes(views[i], steps[i], views[i + 1])
  }

  /** At every moment what is owed is what was launched, exactly if every END is clean. */
  lemma OwedIff(steps: seq<Step>, views: seq<View>)
    requires |views| == |steps| + 1 && Runs(steps, views)
    ensures AllOwed(steps, views) <==> AllClean(steps, views)
  {
    hide Clean, Launched, Stands;
    if AllOwed(steps, views) {
      forall i: nat | i < |steps| && steps[i].End? ensures Clean(views[i], steps[i]) {
        assert steps[..i + 1][..i] == steps[..i];
        assert views[i + 1].owed == Launches(steps[..i + 1]) && views[i].owed == Launches(steps[..i]);
      }
    }
    if AllClean(steps, views) {
      forall i: nat | i <= |steps| ensures views[i].owed == Launches(steps[..i]) { OwedSoFar(steps, views, i); }
    }
  }

  lemma {:induction false} OwedSoFar(steps: seq<Step>, views: seq<View>, i: nat)
    requires |views| == |steps| + 1 && Runs(steps, views) && AllClean(steps, views) && i <= |steps|
    ensures views[i].owed == Launches(steps[..i])
    decreases i
  {
    hide Clean, Launched, Stands;
    if i > 0 {
      OwedSoFar(steps, views, i - 1);
      assert steps[..i][..i - 1] == steps[..i - 1];
    }
  }

  /** The steps of a run, in any interleaving of the producer and the worker. */
  method RunSteps(r: Rdp, steps: seq<Step>) returns (ghost views: seq<View>)
    requires r.Valid() && r.Live() == [] && r.log == r.painted == [] && r.submitted == 0 && r.forward && !r.wake
    requires forall i | 0 <= i < |steps| :: steps[i].End? ==> |steps[i].ram| == r.size
    modifies r
    ensures r.Valid() && r.log == Launches(steps) && r.forward == Forward(steps)
    ensures |views| == |steps| + 1 && views[0] == old(Shows(r)) && Runs(steps, views) && r.Owed() == views[|steps|].owed
  {
    NothingOwed(r);
    NotBegun(steps);
    views := [Shows(r)];
    hide Rdp.Valid, Launched, Rdp.Live, ToPaint, Owes, Rdp.Owed, Stands, Forward, Launches, Runs;
    for i := 0 to |steps|
      invariant r.Valid() && r.submitted == Stands(steps[..i]) && r.forward == Forward(steps[..i])
      invariant r.log == Launches(steps[..i])
      invariant |views| == i + 1 && views[0] == old(Shows(r)) && views[i] == Shows(r) && Runs(steps[..i], views)
    {
      OneFurther(steps, i);
      DoStep(r, steps[i]);
      RunsOn(steps, i, views, Shows(r));
      views := views + [Shows(r)];
    }
    assert steps[..|steps|] == steps;
  }

  lemma RunsOn(steps: seq<Step>, i: nat, views: seq<View>, w: View)
    requires i < |steps| && |views| == i + 1 && Runs(steps[..i], views)
    requires views[i].at == Stands(steps[..i]) && Owes(views[i], steps[i], w)
    ensures Runs(steps[..i + 1], views + [w])
  {
    hide Stands, Owes;
    forall k: nat | k < i + 1
      ensures (views + [w])[k].at == Stands(steps[..i + 1][..k])
      ensures Owes((views + [w])[k], steps[..i + 1][k], (views + [w])[k + 1])
    {
      assert steps[..i + 1][..k] == steps[..k];
      if k < i {
        assert steps[..i][..k] == steps[..k] && views[k].at == Stands(steps[..i][..k]);
        assert Owes(views[k], steps[..i][k], views[k + 1]);
      }
    }
  }

  /** Any interleaving, run down at its end. What is owed is at every moment what was launched, in order, each command as
      it was at its launch, exactly if every END is clean; then that is what has been painted, as it is while no END
      moves back. */
  method Run(r: Rdp, steps: seq<Step>) returns (ghost views: seq<View>)
    requires r.Valid() && r.Live() == [] && r.log == r.painted == [] && r.submitted == 0 && r.forward && !r.wake
    requires forall i | 0 <= i < |steps| :: steps[i].End? ==> |steps[i].ram| == r.size
    modifies r
    ensures r.Valid() && r.Live() == [] && r.log == Launches(steps)
    ensures |views| == |steps| + 1 && views[0] == old(Shows(r)) && Runs(steps, views) && r.painted == views[|steps|].owed
    ensures AllOwed(steps, views) <==> AllClean(steps, views)
    ensures AllClean(steps, views) || Forward(steps) ==> r.painted == Launches(steps)
  {
    hide Rdp.Valid, Launched, ToPaint, Rdp.Owed, Stands, Forward, Launches, AllClean, Runs;
    views := RunSteps(r, steps);
    if r.wake { r.Notify(); }
    r.Drain();
    AllPainted(r);
    OwedIff(steps, views);
    assert steps[..|steps|] == steps;
  }

  lemma NotBegun(steps: seq<Step>)
    ensures Stands(steps[..0]) == 0 && Forward(steps[..0]) && Launches(steps[..0]) == []
    ensures forall v: View | v.owed == [] :: Runs(steps[..0], [v])
  {
  }

  lemma OneFurther(steps: seq<Step>, i: nat)
    requires i < |steps|
    ensures var before, e := steps[..i], steps[i];
            && Stands(steps[..i + 1]) == (if e.Start? then e.start else if e.End? then e.end else Stands(before))
            && Forward(steps[..i + 1]) == (Forward(before) && (e.End? ==> Stands(before) <= e.end))
            && Launches(steps[..i + 1]) ==
               Launches(before) + if e.End? then Launched(e.ram, Job(Stands(before), e.end, e.xbus, 0)) else []
  {
    hide Launched;
    assert steps[..i + 1][..i] == steps[..i];
    assert Launches(steps[..i]) + [] == Launches(steps[..i]);
  }

  lemma NothingOwed(r: Rdp)
    requires r.Live() == [] && r.painted == []
    ensures r.Owed() == []
  {
  }

  lemma AllPainted(r: Rdp)
    requires r.Valid() && r.Live() == []
    ensures r.forward ==> r.painted == r.log
  {
    assert r.forward ==> AllCells(r.Live(), r.texts) == [];
  }

  /** What a span launches, address by address: the byte that is there, and zero past the last chip; of a span in the
      signal processor's memory the address alone. */
  lemma LaunchedIs(ram: seq<byte>, j: Job, a: nat)
    requires j.current <= a < j.end
    ensures |Launched(ram, j)| == j.end - j.current
    ensures Launched(ram, j)[a - j.current] == Cell(j.xbus, a, if j.xbus || a >= |ram| then 0 else ram[a])
  {
  }

  lemma LaunchedLength(sh: seq<byte>, j: Job)
    ensures |Launched(sh, j)| == if j.current <= j.end then j.end - j.current else 0
    ensures forall k | 0 <= k < |Launched(sh, j)| :: Launched(sh, j)[k] == Cell(j.xbus, j.current + k, CommandAt(sh, j, k))
  {
  }

  lemma OpposedQueue()
    ensures Enqueue(Enqueue([], Job(0, 16, false, 0)), Job(16, 8, false, 0)) == [Job(0, 8, false, 0)]
  {
  }

  /** START 0, END 16, END 8: the second END runs against the span it lengthens, and half of what was launched is
      never painted. */
  method OpposedEndLosesCommands() returns (r: Rdp)
    ensures fresh(r) && r.Valid() && r.Live() == [] && |r.log| == 16 && |r.painted| == 8
  {
    hide Rdp.Valid, Rdp.Live, Rdp.Owed, Launched, Refilled, Enqueue, Joined, Joins;
    r := SixteenThenEight();
    LiveOne(r);
    r.Enter();
    LaunchedLength(r.shadow[0], Job(0, 8, false, 0));
    r.Finish();
  }

  method SixteenThenEight() returns (r: Rdp)
    ensures fresh(r) && r.Valid() && r.pc == Idle && r.queue == [Job(0, 8, false, 0)] && |r.log| == 16 && r.painted == []
    ensures |r.shadow| > 0
  {
    hide Rdp.Valid, Rdp.Live, Rdp.Owed, Launched, Refilled, Enqueue, Joined, Joins;
    OpposedQueue();
    r := new Rdp(3, 16);
    r.Submit(16, false, seq(16, _ => 1));
    LaunchedLength(r.shadow[0], Job(0, 16, false, 0));
    r.Submit(8, false, []);
    LaunchedLength(r.shadow[0], Job(16, 8, false, 0));
  }

  lemma LiveOne(r: Rdp)
    requires r.pc == Idle
    ensures r.Live() == r.queue
  {
  }

  /** START 0, END 16, and the worker begins. */
  method SixteenBegun() returns (r: Rdp)
    ensures fresh(r) && r.Valid() && !r.wake && !r.rdpWaiting && r.pc == Painting(Job(0, 16, false, 0))
    ensures r.submitted == 16 && r.rdpGen == 0 && r.size == 16 && r.painted == []
    ensures |r.log| == 16 && r.log[8] == Cell(false, 8, 1)
  {
    hide Rdp.Valid, Rdp.Live, Rdp.Owed, Launched, Refilled, Enqueue, Joined, Joins;
    var j := Job(0, 16, false, 0);
    NothingToJoin(j);
    r := new Rdp(3, 16);
    r.Submit(16, false, seq(16, _ => 1));
    LaunchedLength(r.shadow[0], j);
    r.Enter();
  }

  /** Then END 8, END 16: the last END copies [8, 16) again, under the job that is being painted, which then paints
      there what was launched later. */
  method SecondCopyUnderLiveJob() returns (r: Rdp)
    ensures fresh(r) && r.Valid()
    ensures |r.log| >= 16 && r.log[8] == Cell(false, 8, 1)
    ensures |r.painted| == 16 && r.painted[8] == Cell(false, 8, 2)
  {
    hide Rdp.Valid, Rdp.Live, Rdp.Owed, Launched, Refilled, Enqueue, Joined, Joins;
    r := SixteenBegun();
    r.Submit(8, false, []);
    r.Submit(16, false, seq(8, _ => 2));
    assert r.shadow[0][8..16][0] == 2;
    LaunchedLength(r.shadow[0], Job(0, 16, false, 0));
    r.Finish();
  }

  lemma NothingToJoin(j: Job)
    ensures Enqueue([], j) == [j]
  {
  }
}
