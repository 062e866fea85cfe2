/** The rewind tape: the newest snapshot whole, and one backward delta for each older one, bounded by a budget. */
module RewindEngine {
  import opened Base
  import opened LittleEndian
  import opened Arithmetic
  import opened RewindCodec
  import opened RewindSink

  // ---- what the tape means ----

  /** Every delta, from the newest back, decodes. */
  ghost predicate Decodes(cur: seq<byte>, deltas: seq<seq<byte>>)
    decreases |deltas|
  {
    deltas == [] ||
    var d := deltas[|deltas| - 1];
    Apply(cur, d).Some? && Decodes(Apply(cur, d).value, deltas[..|deltas| - 1])
  }

  /** The snapshots on the tape, oldest first. */
  ghost function Tape(cur: seq<byte>, deltas: seq<seq<byte>>): (t: seq<seq<byte>>)
    requires Decodes(cur, deltas)
    ensures |t| == |deltas| + 1 && t[|t| - 1] == cur
    decreases |deltas|
  {
    if deltas == [] then [cur]
    else
      Tape(Apply(cur, deltas[|deltas| - 1]).value, deltas[..|deltas| - 1]) + [cur]
  }

  ghost function Bytes(deltas: seq<seq<byte>>): nat {
    if deltas == [] then 0 else Bytes(deltas[..|deltas| - 1]) + |deltas[|deltas| - 1]|
  }

  lemma OneMoreDelta(was: seq<byte>, deltas: seq<seq<byte>>, cur: seq<byte>, d: seq<byte>)
    requires Decodes(was, deltas) && Apply(cur, d) == Some(was)
    ensures Decodes(cur, deltas + [d]) && Tape(cur, deltas + [d]) == Tape(was, deltas) + [cur]
    ensures Bytes(deltas + [d]) == Bytes(deltas) + |d|
  {
    hide Apply;
    assert (deltas + [d])[..|deltas|] == deltas;
  }

  /** Losing the oldest delta loses the oldest snapshot and nothing else. */
  lemma {:induction false} ForgetOldest(cur: seq<byte>, deltas: seq<seq<byte>>)
    requires Decodes(cur, deltas) && deltas != []
    ensures Decodes(cur, deltas[1..]) && Tape(cur, deltas[1..]) == Tape(cur, deltas)[1..]
    ensures Bytes(deltas) == |deltas[0]| + Bytes(deltas[1..])
    decreases |deltas|
  {
    hide Apply;
    var n := |deltas| - 1;
    var d, init := deltas[n], deltas[..n];
    var was := Apply(cur, d).value;
    if n == 0 {
      assert deltas[1..] == [] && init == [];
    } else {
      ForgetOldest(was, init);
      assert deltas[1..][..n - 1] == init[1..] && deltas[1..][n - 1] == d;
      assert (Tape(was, init) + [cur])[1..] == Tape(was, init)[1..] + [cur];
    }
  }

  /** `deltas` is `all` without its k oldest, none of which could stay, and decodes to `tape` without its k
      oldest. */
  ghost predicate Dropped(cur: seq<byte>, all: seq<seq<byte>>, tape: seq<seq<byte>>, budget: nat, deltas: seq<seq<byte>>,
                          used: nat, k: nat) {
    && k <= |all| && deltas == all[k..] && used == Bytes(deltas) && (k > 0 ==> Bytes(all[k - 1..]) > budget)
    && Decodes(cur, deltas) && k <= |tape| && Tape(cur, deltas) == tape[k..]
  }

  lemma NoneDropped(cur: seq<byte>, all: seq<seq<byte>>, tape: seq<seq<byte>>, budget: nat)
    requires Decodes(cur, all) && Tape(cur, all) == tape
    ensures Dropped(cur, all, tape, budget, all, Bytes(all), 0)
  {
    hide Decodes, Tape, Bytes;
    assert all[0..] == all && tape[0..] == tape;
  }

  lemma OneDropped(cur: seq<byte>, all: seq<seq<byte>>, tape: seq<seq<byte>>, budget: nat, deltas: seq<seq<byte>>,
                   used: nat, k: nat)
    requires Dropped(cur, all, tape, budget, deltas, used, k) && used > budget && deltas != []
    ensures used >= |deltas[0]| && Dropped(cur, all, tape, budget, deltas[1..], used - |deltas[0]|, k + 1)
  {
    hide Decodes, Bytes, Apply;
    ForgetOldest(cur, deltas);
    hide Tape;
    assert all[k..][1..] == all[k + 1..] && tape[k..][1..] == tape[k + 1..];
  }

  lemma LeftOver(cur: seq<byte>, all: seq<seq<byte>>, tape: seq<seq<byte>>, budget: nat, deltas: seq<seq<byte>>,
                 used: nat, k: nat)
    requires Dropped(cur, all, tape, budget, deltas, used, k) && (used <= budget || deltas == [])
    ensures used == Bytes(deltas) <= budget && Decodes(cur, deltas) && Trimmed(all, k, budget)
    ensures k <= |all| && deltas == all[k..] && k <= |tape| && Tape(cur, deltas) == tape[k..]
  {
    assert Bytes([]) == 0;
    hide Decodes, Bytes, Tape;
  }

  // ---- taking a snapshot ----

  function Concat(pieces: seq<seq<byte>>): seq<byte> {
    if pieces == [] then [] else Concat(pieces[..|pieces| - 1]) + pieces[|pieces| - 1]
  }

  /** The serialised machine: its header and then its fields, in visiting order. */
  function State(header: seq<byte>, fields: seq<seq<byte>>): seq<byte> {
    header + Concat(fields)
  }

  /** The in-place delta depends on the two snapshots only, not on how the new one was cut into fields. */
  function HotDelta(was: seq<byte>, now: seq<byte>): seq<byte>
    requires |now| <= |was|
  {
    PutU64(|was|) + Encode(Finished(ScanOf(was, now)))
  }

  /** Byte k of field i of a snapshot comes behind the header and the fields before it. */
  lemma {:induction false} StateAt(header: seq<byte>, fields: seq<seq<byte>>, i: nat, k: nat)
    requires i < |fields| && k < |fields[i]|
    ensures var s := State(header, fields);
            var p := |header| + Before(fields, i) + k;
            p < |s| && s[p] == fields[i][k] && s[..|header|] == header && |s| == |header| + Before(fields, |fields|)
    decreases |fields|
  {
    ConcatLength(fields);
    var n := |fields| - 1;
    if i < n {
      StateAt(header, fields[..n], i, k);
      ConcatLength(fields[..n]);
      assert fields[..n][..i] == fields[..i];
      BeforeFront(fields, i);
      assert header + Concat(fields) == header + Concat(fields[..n]) + fields[n];
    } else {
      ConcatLength(fields[..n]);
      BeforeFront(fields, n);
      assert header + Concat(fields) == header + Concat(fields[..n]) + fields[n];
    }
  }

  /** The bytes of the fields before field i. */
  function Before(fields: seq<seq<byte>>, i: nat): nat
    requires i <= |fields|
  {
    if i == 0 then 0 else Before(fields, i - 1) + |fields[i - 1]|
  }

  lemma {:induction false} BeforeFront(fields: seq<seq<byte>>, i: nat)
    requires i < |fields|
    ensures Before(fields[..|fields| - 1], i) == Before(fields, i)
    decreases i
  {
    if i > 0 { BeforeFront(fields, i - 1); }
  }

  lemma {:induction false} ConcatLength(fields: seq<seq<byte>>)
    ensures |Concat(fields)| == Before(fields, |fields|)
    decreases |fields|
  {
    if fields != [] {
      ConcatLength(fields[..|fields| - 1]);
      BeforeFront(fields, |fields| - 1);
    }
  }

  lemma ConcatMore(fields: seq<seq<byte>>, i: nat)
    requires i < |fields|
    ensures Concat(fields[..i + 1]) == Concat(fields[..i]) + fields[i]
  {
    assert fields[..i + 1][..i] == fields[..i];
  }

  lemma {:induction false} ConcatGrows(fields: seq<seq<byte>>, i: nat)
    requires i <= |fields|
    ensures |Concat(fields[..i])| <= |Concat(fields)|
    decreases |fields| - i
  {
    if i == |fields| {
      assert fields[..i] == fields;
    } else {
      ConcatMore(fields, i);
      ConcatGrows(fields, i + 1);
    }
  }

  method CountState(fields: seq<seq<byte>>) returns (count: nat)
    ensures count == |Concat(fields)|
  {
    count := 0;
    for i := 0 to |fields|
      invariant count == |Concat(fields[..i])|
    {
      ConcatMore(fields, i);
      count := count + |fields[i]|;
    }
    assert fields[..|fields|] == fields;
  }

  method CaptureState(header: seq<byte>, fields: seq<seq<byte>>) returns (snap: seq<byte>)
    ensures snap == State(header, fields)
  {
    snap := header;
    for i := 0 to |fields|
      invariant snap == State(header, fields[..i])
    {
      ConcatMore(fields, i);
      snap := snap + fields[i];
    }
    assert fields[..|fields|] == fields;
  }

  lemma StateMore(header: seq<byte>, fields: seq<seq<byte>>, i: nat)
    requires i < |fields|
    ensures State(header, fields[..i + 1]) == State(header, fields[..i]) + fields[i]
    ensures |State(header, fields[..i + 1])| <= |State(header, fields)|
  {
    hide Concat;
    ConcatMore(fields, i);
    ConcatGrows(fields, i + 1);
  }

  lemma StateStart(header: seq<byte>, fields: seq<seq<byte>>)
    ensures |header| <= |State(header, fields)|
  {
  }

  /** Everything through the encoder: the header, then each field. */
  method FeedState(header: seq<byte>, fields: seq<seq<byte>>, sink: DeltaSink)
    requires sink.Valid() && !sink.overflow && sink.fed == []
    requires |State(header, fields)| <= |sink.was|
    modifies sink, sink.base
    ensures sink.Valid() && !sink.overflow && sink.fed == State(header, fields)
    ensures sink.was == old(sink.was) && sink.base == old(sink.base)
  {
    assert [] + header == header && State(header, []) == header;
    assert fields[..0] == [] && fields[..|fields|] == fields;
    hide DeltaSink.Valid, State;
    StateStart(header, fields);
    sink.Feed(header);
    for i := 0 to |fields|
      invariant sink.Valid() && !sink.overflow && sink.fed == State(header, fields[..i])
      invariant sink.was == old(sink.was) && sink.base == old(sink.base)
    {
      StateMore(header, fields, i);
      sink.Feed(fields[i]);
    }
  }

  /** The size is counted before the first byte is overwritten: a state of another size leaves both the
      snapshot and the encoder as they were. */
  method CaptureDelta(header: seq<byte>, fields: seq<seq<byte>>, sink: DeltaSink, cur: array<byte>)
      returns (ok: bool)
    modifies sink, cur
    ensures ok == (|State(header, fields)| == cur.Length)
    ensures !ok ==> cur[..] == old(cur[..]) && sink.pos == old(sink.pos)
    ensures ok ==> cur[..] == State(header, fields)
    ensures ok ==> sink.out == HotDelta(old(cur[..]), State(header, fields))
    ensures ok ==> exists rs :: IsDelta(sink.out, rs, cur[..], old(cur[..]))
  {
    hide DeltaSink.Valid, PutU64, Encode, Finished, ScanOf, Concat;
    var count := CountState(fields);
    if |header| + count != cur.Length { return false; }
    sink.Begin(cur);
    FeedState(header, fields, sink);
    ok := sink.Finish();
    assert IsDelta(sink.out, sink.rs, cur[..], old(cur[..]));
  }

  // ---- the engine ----

  /** What is left of the deltas once the oldest have been dropped until the rest fits. */
  ghost predicate Trimmed(deltas: seq<seq<byte>>, k: nat, budget: nat) {
    && k <= |deltas| && Bytes(deltas[k..]) <= budget
    && (k > 0 ==> Bytes(deltas[k - 1..]) > budget)
  }

  /** What decides how the engine goes on: its settings, the fields since the last snapshot, and the tape as
      snapshots and as deltas. */
  datatype View = View(on: bool, interval: nat, budget: nat, since: nat, tape: seq<seq<byte>>, deltas: seq<seq<byte>>)

  /** d leads from a snapshot back to the one before it; between snapshots of one size it is the in-place delta. */
  ghost predicate Leads(d: seq<byte>, now: seq<byte>, was: seq<byte>) {
    Apply(now, d) == Some(was) && (|now| == |was| ==> d == HotDelta(was, now))
  }

  /** The snapshot s joins a tape that holds some; the k oldest go, which have to and no more. */
  ghost predicate Joins(a: View, s: seq<byte>, d: seq<byte>, k: nat, b: View) {
    && a.tape != [] && Leads(d, s, a.tape[|a.tape| - 1])
    && k <= |a.tape| && b.tape == (a.tape + [s])[k..]
    && Trimmed(a.deltas + [d], k, a.budget) && b.deltas == (a.deltas + [d])[k..]
  }

  ghost predicate Records(a: View, s: seq<byte>, b: View) {
    if a.tape == [] then b.tape == [s] && b.deltas == a.deltas else exists d, k :: Joins(a, s, d, k, b)
  }

  class Engine {
    var enabled: bool
    var interval: nat
    var budget: nat
    var cur: array<byte>
    var scratch: array<byte>
    var deltas: seq<seq<byte>>
    var used: nat
    var sinceLast: nat
    var primed: bool
    const sink: DeltaSink

    /** The tape decodes, its size is on the books and within the budget, and there is none before the first
        snapshot. */
    ghost predicate Valid()
      reads this, cur
    {
      && Decodes(cur[..], deltas) && cur.Length <= MAX_STATE
      && used == Bytes(deltas) <= budget
      && (!primed ==> deltas == [])
    }

    /** The snapshots that can be gone back to, and the live one last. */
    ghost function Snapshots(): (t: seq<seq<byte>>)
      requires Valid()
      reads this, cur
    {
      if primed then Tape(cur[..], deltas) else []
    }

    ghost function Shows(): View
      requires Valid()
      reads this, cur
    {
      View(enabled, interval, budget, sinceLast, Snapshots(), deltas)
    }

    constructor ()
      ensures Valid() && Shows() == View(false, 2, 0, 0, [], [])
    {
      enabled, interval, budget := false, 2, 0;
      deltas, used, sinceLast, primed := [], 0, 0, false;
      var none := new byte[0];
      cur := none;
      scratch := none;
      sink := new DeltaSink(none);
    }

    method Clear()
      modifies this`deltas, this`cur, this`used, this`sinceLast, this`primed
      ensures Valid() && Snapshots() == [] && deltas == [] && sinceLast == 0 && !primed && fresh(cur)
    {
      deltas, used, sinceLast, primed := [], 0, 0, false;
      cur := new byte[0];
    }

    /** Turning it on or off, or changing budget and pace, throws the tape away. */
    method Configure(on: bool, mb: nat, fields: nat)
      modifies this
      ensures Valid() && fresh(cur)
      ensures Shows() == View(on, Interval(old(interval), on, fields), Budget(old(budget), on, mb), 0, [], [])
    {
      Clear();
      enabled := on;
      if !enabled {
        scratch := new byte[0];
        return;
      }
      var mbv := if mb < 8 then 8 else mb;
      budget := mbv * 0x10_0000;
      interval := if fields != 0 then fields else 1;
    }

    /** A new delta at the young end; the oldest go until the budget holds, and no further. k is how many. */
    method Push(d: seq<byte>, ghost was: seq<byte>) returns (ghost k: nat)
      requires Decodes(was, deltas) && Apply(cur[..], d) == Some(was)
      requires primed && cur.Length <= MAX_STATE && used == Bytes(deltas)
      modifies this`deltas, this`used
      ensures Valid() && k <= |old(deltas)| + 1
      ensures Trimmed(old(deltas) + [d], k, budget) && deltas == (old(deltas) + [d])[k..]
      ensures Snapshots() == (Tape(was, old(deltas)) + [cur[..]])[k..]
    {
      assert Bytes([]) == 0;
      hide Apply, Decodes, Tape, Bytes, Dropped;
      ghost var now := cur[..];
      ghost var all, tape := deltas + [d], Tape(was, deltas) + [now];
      OneMoreDelta(was, deltas, now, d);
      NoneDropped(now, all, tape, budget);
      used := used + |d|;
      deltas := deltas + [d];
      k := 0;
      while used > budget && |deltas| > 0
        invariant Dropped(now, all, tape, budget, deltas, used, k)
        decreases |deltas|
      {
        OneDropped(now, all, tape, budget, deltas, used, k);
        used := used - |deltas[0]|;
        deltas := deltas[1..];
        k := k + 1;
      }
      LeftOver(now, all, tape, budget, deltas, used, k);
    }

    /** The usual way: the state overwrites the live snapshot, provided it has its size. */
    method TakeHot(header: seq<byte>, fields: seq<seq<byte>>) returns (ok: bool)
      requires Valid() && primed
      modifies this`deltas, this`used, sink, cur
      ensures Valid()
      ensures !ok ==> sink.pos == 0 && Snapshots() == old(Snapshots()) && deltas == old(deltas)
      ensures !ok ==> |State(header, fields)| != cur.Length
      ensures ok ==> Records(old(Shows()), State(header, fields), Shows())
    {
      hide Apply, State, Decodes, Tape, IsDelta, Trimmed, Bytes, HotDelta;
      ghost var was := cur[..];
      ghost var before := Shows();
      assert before.tape[|before.tape| - 1] == was;
      sink.pos := 0;
      ok := CaptureDelta(header, fields, sink, cur);
      if ok {
        ghost var rs :| IsDelta(sink.out, rs, cur[..], was);
        DeltaRestores(sink.out, rs, cur[..], was);
        ghost var k := Push(sink.out, was);
        assert Joins(before, State(header, fields), sink.out, k, Shows());
      }
    }

    /** The other way, for the first snapshot and for a state that changed size: serialise all of it, and compare
        whole snapshots. */
    method TakeWhole(header: seq<byte>, fields: seq<seq<byte>>)
      requires Valid() && |State(header, fields)| <= MAX_STATE && (primed ==> |State(header, fields)| != cur.Length)
      modifies this`deltas, this`used, this`cur, this`scratch, this`primed
      ensures Valid() && primed && fresh(cur)
      ensures Records(old(Shows()), State(header, fields), Shows())
    {
      hide Apply, State, IsDelta, Trimmed, Bytes, HotDelta, Literals, Cost, Whole;
      ghost var was := cur[..];
      ghost var before := Shows();
      var snap := CaptureState(header, fields);
      scratch := new byte[|snap|](i requires 0 <= i < |snap| => snap[i]);
      assert scratch[..] == snap;
      if !primed {
        cur, scratch := scratch, cur;
        primed := true;
        return;
      }
      assert before.tape[|before.tape| - 1] == was;
      var delta, rs := MakeDelta(scratch[..], cur[..]);
      cur, scratch := scratch, cur;
      DeltaRestores(delta, rs, cur[..], was);
      ghost var k := Push(delta, was);
      assert Joins(before, snap, delta, k, Shows());
    }

    /** The machine closed a video field. Every `interval` fields its state goes on the tape, whatever its size;
        the k oldest snapshots make room for it, and no more than have to. */
    method OnField(header: seq<byte>, fields: seq<seq<byte>>) returns (took: bool)
      requires Valid() && |State(header, fields)| <= MAX_STATE
      modifies this, sink, cur
      ensures cur == old(cur) || fresh(cur)
      ensures Valid() && enabled == old(enabled) && interval == old(interval) && budget == old(budget)
      ensures took == (enabled && old(sinceLast) + 1 >= interval)
      ensures sinceLast == if took then 0 else if enabled then old(sinceLast) + 1 else old(sinceLast)
      ensures !took ==> Snapshots() == old(Snapshots()) && deltas == old(deltas)
      ensures took ==> Records(old(Shows()), State(header, fields), Shows())
    {
      hide Apply, State, Bytes, Decodes, Tape, Trimmed, Leads;
      took := false;
      ghost var before := Shows();
      if !enabled { return; }
      sinceLast := sinceLast + 1;
      if sinceLast < interval { return; }
      sinceLast, took := 0, true;
      if primed {
        var ok := TakeHot(header, fields);
        if ok { SameButSince(before, State(header, fields), Shows()); return; }
        // Nothing was overwritten, so the tape never has to be thrown away here.
        assert sink.pos == 0;
      }
      TakeWhole(header, fields);
      SameButSince(before, State(header, fields), Shows());
    }

    /** One step back. `accepted` is the machine's own verdict on the state it is given. */
    method StepBack(accepted: bool) returns (ok: bool)
      requires Valid()
      modifies this
      ensures cur == old(cur) || fresh(cur)
      ensures Valid() && enabled == old(enabled) && interval == old(interval) && budget == old(budget)
      ensures ok == (enabled && |old(Snapshots())| > 1 && accepted)
      ensures ok ==> Snapshots() == old(Snapshots())[..|old(Snapshots())| - 1] && sinceLast == 0
      ensures ok ==> deltas == old(deltas)[..|old(deltas)| - 1] && old(deltas) != []
      ensures !ok ==> Snapshots() == old(Snapshots()) && deltas == old(deltas) && sinceLast == old(sinceLast)
    {
      hide Apply, State;
      if !enabled || |deltas| == 0 { return false; }
      var last := |deltas| - 1;
      var good, was := ApplyDelta(cur[..], deltas[last]);
      assert good;  // a tape that decodes is never refused as corrupt
      scratch := new byte[|was|](i requires 0 <= i < |was| => was[i]);
      assert scratch[..] == was;
      if !accepted { return false; }
      used := used - |deltas[last]|;
      deltas := deltas[..last];
      cur, scratch := scratch, cur;
      sinceLast := 0;
      return true;
    }
  }

  function Interval(was: nat, on: bool, fields: nat): nat {
    if !on then was else if fields != 0 then fields else 1
  }

  function Budget(was: nat, on: bool, mb: nat): nat {
    if !on then was else (if mb < 8 then 8 else mb) * 0x10_0000
  }

  /** Switched on: at least one field from snapshot to snapshot, otherwise as many as asked for; and the megabytes asked
      for, but no fewer than 8. Switched off, both stay. */
  lemma SettingsAre(interval: nat, budget: nat, mb: nat, fields: nat)
    ensures Interval(interval, false, fields) == interval && Budget(budget, false, mb) == budget
    ensures Interval(interval, true, fields) >= 1 && (fields >= 1 ==> Interval(interval, true, fields) == fields)
    ensures fields == 0 ==> Interval(interval, true, fields) == 1
    ensures Budget(budget, true, mb) % 1048576 == 0
    ensures Budget(budget, true, mb) / 1048576 >= 8 && Budget(budget, true, mb) / 1048576 >= mb
    ensures Budget(budget, true, mb) / 1048576 == 8 || Budget(budget, true, mb) / 1048576 == mb
  {
  }

  /** Recording does not look at the count of fields. */
  lemma SameButSince(a: View, s: seq<byte>, b: View)
    ensures Records(a.(since := 0), s, b) ==> Records(a, s, b)
  {
    hide Leads, Trimmed;
    if Records(a.(since := 0), s, b) && a.tape != [] {
      var d, k :| Joins(a.(since := 0), s, d, k, b);
      assert Joins(a, s, d, k, b);
    }
  }

  // ---- whole runs ----

  /** What can happen to the engine while the game runs. */
  datatype Event =
    | Field(header: seq<byte>, fields: seq<seq<byte>>)
    | Back(accepted: bool)
    | Reset
    | Settings(on: bool, mb: nat, n: nat)

  /** What an event does, and whether it has an effect: a field takes a snapshot exactly when the engine is on and
      `interval` fields have passed; a step back succeeds exactly when it is on, the machine accepts the state and
      there is an older snapshot. */
  ghost predicate Steps(a: View, e: Event, effect: bool, b: View) {
    match e
    case Field(header, fields) =>
      && effect == (a.on && a.since + 1 >= a.interval)
      && b == a.(since := if effect then 0 else if a.on then a.since + 1 else a.since, tape := b.tape, deltas := b.deltas)
      && if effect then Records(a, State(header, fields), b) else b.tape == a.tape && b.deltas == a.deltas
    case Back(accepted) =>
      && effect == (a.on && |a.tape| > 1 && accepted)
      && if effect then
           a.deltas != [] &&
           b == a.(since := 0, tape := a.tape[..|a.tape| - 1], deltas := a.deltas[..|a.deltas| - 1])
         else b == a
    case Reset => effect && b == a.(since := 0, tape := [], deltas := [])
    case Settings(on, mb, n) => effect && b == View(on, Interval(a.interval, on, n), Budget(a.budget, on, mb), 0, [], [])
  }

  /** A run, step by step. */
  ghost predicate Follows(views: seq<View>, events: seq<Event>, effect: seq<bool>) {
    && |effect| == |events| && |views| == |events| + 1
    && forall i | 0 <= i < |events| :: Steps(views[i], events[i], effect[i], views[i + 1])
  }

  /** The history after one more event; `effect` tells whether it did anything. */
  function After(h: seq<seq<byte>>, event: Event, effect: bool): seq<seq<byte>> {
    match event
    case Field(header, fields) => if effect then h + [State(header, fields)] else h
    case Back(_) => if effect && h != [] then h[..|h| - 1] else h
    case Reset => []
    case Settings(_, _, _) => []
  }

  /** The snapshots taken and not undone. */
  function History(events: seq<Event>, effect: seq<bool>): seq<seq<byte>>
    requires |events| == |effect|
  {
    if events == [] then []
    else
      var n := |events| - 1;
      After(History(events[..n], effect[..n]), events[n], effect[n])
  }

  /** The tape is the young end of the history, and holds the youngest snapshot whenever there is one. */
  ghost predicate YoungEnd(tape: seq<seq<byte>>, h: seq<seq<byte>>) {
    |tape| <= |h| && tape == h[|h| - |tape|..] && (h != [] ==> tape != [])
  }

  lemma YoungEndKept(tape: seq<seq<byte>>, h: seq<seq<byte>>, s: seq<byte>, k: nat)
    requires YoungEnd(tape, h)
    ensures k <= |tape| ==> YoungEnd((tape + [s])[k..], h + [s])
    ensures |tape| > 1 ==> YoungEnd(tape[..|tape| - 1], h[..|h| - 1])
  {
    if k <= |tape| {
      assert (tape + [s])[k..] == (h + [s])[|h| - |tape| + k..];
    }
    if |tape| > 1 {
      assert tape[..|tape| - 1] == h[..|h| - 1][|h| - |tape|..];
    }
  }

  lemma StepKeepsYoungEnd(a: View, e: Event, effect: bool, b: View, h: seq<seq<byte>>)
    requires Steps(a, e, effect, b) && YoungEnd(a.tape, h)
    ensures YoungEnd(b.tape, After(h, e, effect))
  {
    hide State, Leads, Trimmed;
    match e
    case Field(header, fields) =>
      if effect {
        var s := State(header, fields);
        YoungEndKept(a.tape, h, s, 0);
        if a.tape != [] {
          var d, k :| Joins(a, s, d, k, b);
          YoungEndKept(a.tape, h, s, k);
        }
      }
    case Back(_) => YoungEndKept(a.tape, h, [], 0);
    case Reset =>
    case Settings(_, _, _) =>
  }

  /** Along any run the tape decodes to the young end of the history, so n steps back give the n-th youngest snapshot
      not undone. */
  lemma {:induction false} TapeIsYoungEnd(views: seq<View>, events: seq<Event>, effect: seq<bool>, n: nat)
    requires Follows(views, events, effect) && views[0].tape == [] && n <= |events|
    ensures YoungEnd(views[n].tape, History(events[..n], effect[..n]))
  {
    hide Steps, After;
    if n > 0 {
      var m := n - 1;
      TapeIsYoungEnd(views, events, effect, m);
      assert events[..n][..m] == events[..m] && effect[..n][..m] == effect[..m];
      StepKeepsYoungEnd(views[m], events[m], effect[m], views[n], History(events[..m], effect[..m]));
    }
  }

  /** Left alone, the engine takes a snapshot of every `interval`-th field and of no other. */
  lemma {:induction false} SteadyPace(views: seq<View>, events: seq<Event>, effect: seq<bool>, n: nat)
    requires Follows(views, events, effect) && n <= |events|
    requires forall i | 0 <= i < |events| :: events[i].Field?
    requires views[0].on && views[0].interval > 0 && views[0].since == 0
    ensures views[n].on && views[n].interval == views[0].interval && views[n].since == n % views[0].interval
    ensures forall i | 0 <= i < n :: effect[i] <==> (i + 1) % views[0].interval == 0
  {
    var step := views[0].interval;
    if n > 0 {
      SteadyPace(views, events, effect, n - 1);
      hide Records;
      assert Steps(views[n - 1], events[n - 1], effect[n - 1], views[n]);
      NextOf(n - 1, step);
    } else {
      Quotient(0, step, 0, 0);
    }
  }

  lemma NextOf(i: nat, d: nat)
    requires d > 0
    ensures (i + 1) % d == if i % d + 1 == d then 0 else i % d + 1
  {
    Euclid(i, d);
    Distribute(d, i / d, 1);
    if i % d + 1 == d { Quotient(i + 1, d, i / d + 1, 0); } else { Quotient(i + 1, d, i / d, i % d + 1); }
  }

  /** n accepted steps back, as long as the tape holds more than n snapshots, all succeed, and the n-th leaves the
      snapshot that was n before the live one. */
  lemma {:induction false} BackTo(views: seq<View>, events: seq<Event>, effect: seq<bool>, n: nat)
    requires Follows(views, events, effect) && n <= |events| && views[0].on
    requires forall i | 0 <= i < |events| :: events[i] == Back(true)
    requires n < |views[0].tape|
    ensures views[n].on && views[n].tape == views[0].tape[..|views[0].tape| - n]
    ensures forall i | 0 <= i < n :: effect[i]
  {
    if n > 0 {
      BackTo(views, events, effect, n - 1);
      assert Steps(views[n - 1], events[n - 1], effect[n - 1], views[n]);
    }
  }

  /** The budget holds after every field that was recorded. */
  lemma RecordingFits(a: View, s: seq<byte>, b: View)
    requires Records(a, s, b) && Bytes(a.deltas) <= a.budget
    ensures Bytes(b.deltas) <= a.budget && b.tape != [] && b.tape[|b.tape| - 1] == s
  {
    hide Leads, Bytes;
    if a.tape != [] {
      var d, k :| Joins(a, s, d, k, b);
      assert b.tape[|b.tape| - 1] == (a.tape + [s])[|a.tape|];
    }
  }

  ghost predicate Fits(event: Event) {
    event.Field? ==> |State(event.header, event.fields)| <= MAX_STATE
  }

  method Happen(engine: Engine, event: Event) returns (effect: bool)
    requires engine.Valid() && Fits(event)
    modifies engine, engine.sink, engine.cur
    ensures engine.Valid() && Steps(old(engine.Shows()), event, effect, engine.Shows())
    ensures engine.cur == old(engine.cur) || fresh(engine.cur)
  {
    hide Engine.Valid, Engine.Snapshots, State, Records;
    match event {
      case Field(header, fields) => effect := engine.OnField(header, fields);
      case Back(accepted) => effect := engine.StepBack(accepted);
      case Reset =>
        engine.Clear();
        effect := true;
      case Settings(on, mb, n) =>
        engine.Configure(on, mb, n);
        effect := true;
    }
  }

  /** Any run of fields, steps back, resets and changed settings: every step is as described, and if the tape was
      empty at its start it decodes at its end to the young end of the history. */
  method Run(engine: Engine, events: seq<Event>) returns (effect: seq<bool>, ghost views: seq<View>)
    requires engine.Valid() && forall i | 0 <= i < |events| :: Fits(events[i])
    modifies engine, engine.sink, engine.cur
    ensures engine.Valid() && Follows(views, events, effect)
    ensures views[0] == old(engine.Shows()) && views[|events|] == engine.Shows()
    ensures old(engine.Snapshots()) == [] ==> YoungEnd(engine.Snapshots(), History(events, effect))
  {
    effect, views := [], [engine.Shows()];
    hide Engine.Valid, Engine.Snapshots, History, After, Fits, Steps;
    for i := 0 to |events|
      invariant |effect| == i && |views| == i + 1 && engine.Valid() && (engine.cur == old(engine.cur) || fresh(engine.cur))
      invariant views[0] == old(engine.Shows()) && views[i] == engine.Shows()
      invariant forall k | 0 <= k < i :: Steps(views[k], events[k], effect[k], views[k + 1])
    {
      var done := Happen(engine, events[i]);
      effect := effect + [done];
      views := views + [engine.Shows()];
    }
    assert events[..|events|] == events && effect[..|events|] == effect;
    if old(engine.Snapshots()) == [] { TapeIsYoungEnd(views, events, effect, |events|); }
  }
}
