/** The in-place encoder of backward deltas: the new state arrives in pieces and overwrites the old
    snapshot while the old bytes it displaces are written to the delta. */
module RewindSink {
  import opened Base
  import opened LittleEndian
  import opened RewindCodec

  /** What the encoder remembers between two bytes: the finished records, the open equal run, the literals of
      the open different run, and the equal bytes after it that are too few yet to close it. */
  datatype Scan = Scan(rs: seq<Rec>, same: nat, diff: seq<byte>, pend: seq<byte>)

  const START := Scan([], 0, [], [])

  /** One byte, old value o and new value n. */
  function Eat(s: Scan, o: byte, n: byte): Scan {
    if o != n then s.(diff := s.diff + s.pend + [o], pend := [])
    else if s.diff == [] then s.(same := s.same + 1)
    else if |s.pend| + 1 < GAP then s.(pend := s.pend + [o])
    else Scan(s.rs + [Rec(s.same, s.diff)], |s.pend| + 1, [], [])
  }

  /** The scan of the first |now| bytes: byte by byte, whatever the pieces were. */
  function ScanOf(was: seq<byte>, now: seq<byte>): Scan
    requires |now| <= |was|
  {
    if now == [] then START
    else
      var k := |now| - 1;
      Eat(ScanOf(was, now[..k]), was[k], now[k])
  }

  /** A run of equal bytes, all at once. */
  function EatEqual(s: Scan, run: seq<byte>): Scan {
    if s.diff == [] then s.(same := s.same + |run|)
    else if |s.pend| + |run| < GAP then s.(pend := s.pend + run)
    else Scan(s.rs + [Rec(s.same, s.diff)], |s.pend| + |run|, [], [])
  }

  /** What an equal run does to an open record, field by field. */
  lemma EatPend(s: Scan, was: seq<byte>, k: nat, n: nat)
    requires Tidy(s) && |s.pend| <= k && k + n <= |was| && s.pend == was[k - |s.pend|..k]
    ensures var e := EatEqual(s, was[k..k + n]);
            && |e.pend| <= k + n && e.pend == was[k + n - |e.pend|..k + n]
            && if s.diff == [] then e == s.(same := s.same + n)
               else if |s.pend| + n < GAP then e.(pend := s.pend) == s && |e.pend| == |s.pend| + n
               else e == Scan(s.rs + [Rec(s.same, s.diff)], |s.pend| + n, [], [])
  {
    assert was[k - |s.pend|..k] + was[k..k + n] == was[k - |s.pend|..k + n];
  }

  /** A nonempty run of different bytes, all at once. */
  function EatDifferent(s: Scan, run: seq<byte>): Scan {
    s.(diff := s.diff + s.pend + run, pend := [])
  }

  lemma DifferentIs(s: Scan, was: seq<byte>, k: nat, n: nat)
    requires k + n <= |was|
    ensures var e := EatDifferent(s, was[k..k + n]);
            && e.rs == s.rs && e.same == s.same && e.pend == [] == was[k + n..k + n]
            && e.diff == (if s.pend == [] then s.diff else s.diff + s.pend) + was[k..k + n]
  {
    assert s.diff + [] == s.diff;
  }

  /** Literals are open whenever equal bytes are held back. */
  ghost predicate Tidy(s: Scan) {
    (s.diff == [] ==> s.pend == []) && |s.pend| < GAP
  }

  lemma {:induction false} ScanIsTidy(was: seq<byte>, now: seq<byte>)
    requires |now| <= |was|
    ensures Tidy(ScanOf(was, now))
    decreases |now|
  {
    if now != [] { ScanIsTidy(was, now[..|now| - 1]); }
  }

  lemma EqualRun(was: seq<byte>, now: seq<byte>, n: nat)
    requires |now| + n <= |was|
    ensures var run := was[|now|..|now| + n];
            ScanOf(was, now + run) == EatEqual(ScanOf(was, now), run) || n == 0
  {
    hide ScanOf, EatEqual;
    if n > 0 { EqualRunOf(was, now, was[|now|..|now| + n]); }
  }

  lemma {:induction false} EqualRunOf(was: seq<byte>, now: seq<byte>, run: seq<byte>)
    requires run != [] && |now| + |run| <= |was| && was[|now|..|now| + |run|] == run
    ensures ScanOf(was, now + run) == EatEqual(ScanOf(was, now), run)
    decreases |run|
  {
    hide ScanOf, Eat, EatEqual, Tidy;
    var m := |run| - 1;
    var most, x := run[..m], run[m];
    assert now + run == now + most + [x] && run == most + [x];
    assert was[|now|..|now| + |run|][..m] == was[|now|..|now| + m];
    assert was[|now| + m] == was[|now|..|now| + |run|][m] == x;
    ScanMore(was, now + most, x);
    ScanIsTidy(was, now);
    EqualByte(ScanOf(was, now), most, x);
    if m == 0 {
      assert now + most == now;
    } else {
      EqualRunOf(was, now, most);
      ScanIsTidy(was, now + most);
    }
  }

  lemma ScanMore(was: seq<byte>, now: seq<byte>, x: byte)
    requires |now| < |was|
    ensures ScanOf(was, now + [x]) == Eat(ScanOf(was, now), was[|now|], x)
  {
    hide Eat;
    assert (now + [x])[..|now|] == now;
  }

  /** One equal byte more after an equal run, or by itself. */
  lemma EqualByte(s: Scan, most: seq<byte>, x: byte)
    requires Tidy(s)
    ensures Eat(s, x, x) == EatEqual(s, [x])
    ensures most != [] && Tidy(EatEqual(s, most)) ==> Eat(EatEqual(s, most), x, x) == EatEqual(s, most + [x])
  {
    JoinAppends(s.pend, most, x);
  }

  lemma JoinAppends(a: seq<byte>, b: seq<byte>, c: byte)
    ensures a + (b + [c]) == a + b + [c]
  {
  }

  lemma {:induction false} DifferentRun(was: seq<byte>, now: seq<byte>, src: seq<byte>)
    requires src != [] && |now| + |src| <= |was|
    requires forall i | 0 <= i < |src| :: src[i] != was[|now| + i]
    ensures ScanOf(was, now + src) == EatDifferent(ScanOf(was, now), was[|now|..|now| + |src|])
    decreases |src|
  {
    var k, m := |now|, |src| - 1;
    var most := src[..m];
    var next := now + src;
    assert next[..k + m] == now + most;
    assert ScanOf(was, next) == Eat(ScanOf(was, now + most), was[k + m], src[m]);
    assert was[k..k + m + 1] == was[k..k + m] + [was[k + m]];
    if m == 0 {
      assert now + most == now;
    } else {
      DifferentRun(was, now, most);
      var s := ScanOf(was, now);
      JoinAppends(s.diff + s.pend, was[k..k + m], was[k + m]);
    }
  }

  /** The records of a finished scan. */
  function Finished(s: Scan): seq<Rec> {
    if s.diff != [] then
      s.rs + [Rec(s.same, s.diff)] + (if s.pend == [] then [] else [Rec(|s.pend|, [])])
    else if s.same > 0 then s.rs + [Rec(s.same, [])]
    else s.rs
  }

  /** The bytes a scan stands for: its records, the open runs and the bytes held back. */
  ghost predicate Sensible(s: Scan, now: seq<byte>) {
    Sound(s.rs, now) && Size(s.rs) + s.same <= |now|
  }

  ghost function Rebuilt(s: Scan, now: seq<byte>): seq<byte>
    requires Sensible(s, now)
  {
    Replay(s.rs, now) + now[Size(s.rs)..Size(s.rs) + s.same] + s.diff + s.pend
  }

  /** The scan has seen k bytes and rebuilds was[..k]; the bytes held back are the same in the new state. */
  ghost predicate Consistent(s: Scan, was: seq<byte>, now: seq<byte>, k: nat) {
    && Sensible(s, now) && k <= |was| && k <= |now|
    && Rebuilt(s, now) == was[..k] && |s.pend| <= k && s.pend == now[k - |s.pend|..k]
  }

  lemma ScanStep(was: seq<byte>, now: seq<byte>, k: nat)
    requires k < |now| <= |was|
    ensures ScanOf(was, now[..k + 1]) == Eat(ScanOf(was, now[..k]), was[k], now[k])
  {
    hide Eat;
    assert now[..k + 1][..k] == now[..k];
  }

  lemma {:induction false} ScanIsConsistent(was: seq<byte>, now: seq<byte>, k: nat)
    requires k <= |now| <= |was|
    ensures Consistent(ScanOf(was, now[..k]), was, now, k)
    decreases k
  {
    if k == 0 {
      StartIsConsistent(was, now);
    } else {
      hide Consistent, Eat, ScanOf, Tidy;
      ScanIsConsistent(was, now, k - 1);
      ScanIsTidy(was, now[..k - 1]);
      ScanStep(was, now, k - 1);
      EatKeepsConsistent(ScanOf(was, now[..k - 1]), was, now, k - 1);
    }
  }

  lemma StartIsConsistent(was: seq<byte>, now: seq<byte>)
    ensures ScanOf(was, now[..0]) == START && Consistent(START, was, now, 0)
  {
    assert was[..0] == [] && now[0..0] == [];
  }

  lemma EatKeepsConsistent(s: Scan, was: seq<byte>, now: seq<byte>, k: nat)
    requires k < |was| && k < |now| && Consistent(s, was, now, k) && Tidy(s)
    ensures Consistent(Eat(s, was[k], now[k]), was, now, k + 1)
  {
    OneByteMore(was, 0, k);
    OneByteMore(now, k - |s.pend|, k);
    assert |Rebuilt(s, now)| == k;
    hide Rebuilt, Replay, Size, Sound;
    if was[k] != now[k] {
      LiteralRebuilds(s, now, was[k]);
    } else if s.diff == [] {
      assert s.pend == [];
      SameRebuilds(s, now, k);
    } else if |s.pend| + 1 < GAP {
      HoldingRebuilds(s, now, was[k]);
    } else {
      ClosingRebuilds(s, now, k);
    }
  }

  lemma OneByteMore(a: seq<byte>, i: nat, k: nat)
    requires i <= k < |a|
    ensures a[i..k + 1] == a[i..k] + [a[k]] && a[..k + 1] == a[..k] + [a[k]]
  {
  }

  lemma LiteralRebuilds(s: Scan, now: seq<byte>, o: byte)
    requires Sensible(s, now)
    ensures Rebuilt(s.(diff := s.diff + s.pend + [o], pend := []), now) == Rebuilt(s, now) + [o]
  {
    hide Sound, Replay, Size;
    var r := Replay(s.rs, now) + now[Size(s.rs)..Size(s.rs) + s.same];
    assert r + (s.diff + s.pend + [o]) + [] == r + s.diff + s.pend + [o];
  }

  lemma SameRebuilds(s: Scan, now: seq<byte>, k: nat)
    requires Sensible(s, now) && s.diff == [] == s.pend && |Rebuilt(s, now)| == k < |now|
    ensures Sensible(s.(same := s.same + 1), now)
    ensures Rebuilt(s.(same := s.same + 1), now) == Rebuilt(s, now) + [now[k]]
  {
    hide Sound, Replay, Size;
    var i, r := Size(s.rs), Replay(s.rs, now);
    assert k == i + s.same;
    assert now[i..k + 1] == now[i..k] + [now[k]];
    assert r + (now[i..k] + [now[k]]) + [] + [] == r + now[i..k] + [] + [] + [now[k]];
  }

  lemma HoldingRebuilds(s: Scan, now: seq<byte>, o: byte)
    requires Sensible(s, now)
    ensures Rebuilt(s.(pend := s.pend + [o]), now) == Rebuilt(s, now) + [o]
  {
    hide Sound, Replay, Size;
    var r := Replay(s.rs, now) + now[Size(s.rs)..Size(s.rs) + s.same] + s.diff;
    assert r + (s.pend + [o]) == r + s.pend + [o];
  }

  /** The open runs become a record. */
  lemma RecordRebuilds(s: Scan, now: seq<byte>)
    requires Sensible(s, now) && s.diff != []
    ensures var rs := s.rs + [Rec(s.same, s.diff)];
            && Sound(rs, now) && Size(rs) + |s.pend| == |Rebuilt(s, now)|
            && Replay(rs, now) + s.pend == Rebuilt(s, now)
  {
    hide Sound, Replay, Size;
    OneMoreRecord(s.rs, Rec(s.same, s.diff), now);
  }

  lemma ClosingRebuilds(s: Scan, now: seq<byte>, k: nat)
    requires Sensible(s, now) && s.diff != [] && |Rebuilt(s, now)| == k < |now|
    requires |s.pend| <= k && s.pend == now[k - |s.pend|..k]
    ensures var t := Scan(s.rs + [Rec(s.same, s.diff)], |s.pend| + 1, [], []);
            Sensible(t, now) && Rebuilt(t, now) == Rebuilt(s, now) + [now[k]]
  {
    RecordRebuilds(s, now);
    hide Sound, Replay, Size;
    var r := Replay(s.rs + [Rec(s.same, s.diff)], now);
    assert now[k - |s.pend|..k + 1] == s.pend + [now[k]];
    Spread(r, s.pend, now[k]);
  }

  lemma Spread(r: seq<byte>, p: seq<byte>, x: byte)
    ensures r + (p + [x]) + [] + [] == r + p + [x]
  {
  }

  /** However the new state was cut, the finished scan rebuilds the old snapshot. */
  lemma FinishedRebuilds(was: seq<byte>, now: seq<byte>)
    requires |now| == |was|
    ensures Sound(Finished(ScanOf(was, now)), now) && Replay(Finished(ScanOf(was, now)), now) == was
  {
    hide ScanOf, Consistent, Sound, Replay, Finished;
    assert now[..|was|] == now;
    ScanIsConsistent(was, now, |was|);
    ScanIsTidy(was, now);
    FinishingRebuilds(ScanOf(was, now), was, now);
  }

  lemma FinishingRebuilds(s: Scan, was: seq<byte>, now: seq<byte>)
    requires |now| == |was| && Consistent(s, was, now, |was|) && Tidy(s)
    ensures Sound(Finished(s), now) && Replay(Finished(s), now) == was
  {
    assert was[..|was|] == was;
    hide Sound, Replay, Size, Rebuilt;
    if s.diff != [] {
      RecordRebuilds(s, now);
      LastEqualRun(s.rs + [Rec(s.same, s.diff)], now, s.pend);
    } else {
      NoLiteralsLeft(s, now);
    }
  }

  lemma NoLiteralsLeft(s: Scan, now: seq<byte>)
    requires Sensible(s, now) && s.diff == [] == s.pend && |Rebuilt(s, now)| == |now|
    ensures Sound(Finished(s), now) && Replay(Finished(s), now) == Rebuilt(s, now)
  {
    hide Sound, Replay, Size;
    var i, r := Size(s.rs), Replay(s.rs, now);
    var run := now[i..|now|];
    assert s.same == |run| && r + run + [] + [] == r + run;
    LastEqualRun(s.rs, now, run);
    assert Finished(s) == s.rs + (if run == [] then [] else [Rec(|run|, [])]);
  }

  /** A trailing equal run becomes a record without literals, or nothing at all. */
  lemma LastEqualRun(rs: seq<Rec>, now: seq<byte>, run: seq<byte>)
    requires Sound(rs, now) && Size(rs) + |run| == |now| && run == now[Size(rs)..]
    ensures var all := rs + (if run == [] then [] else [Rec(|run|, [])]);
            Sound(all, now) && Replay(all, now) == Replay(rs, now) + run
  {
    hide Sound, Replay, Size;
    if run == [] {
      assert rs + [] == rs && Replay(rs, now) + run == Replay(rs, now);
    } else {
      OneMoreRecord(rs, Rec(|run|, []), now);
      assert now[Size(rs)..Size(rs) + |run|] == run;
      assert Replay(rs, now) + run + [] == Replay(rs, now) + run;
    }
  }

  /** The encoder. `base` is the snapshot it overwrites; `was` and `fed` are what it held at the start and what
      has arrived since. */
  class DeltaSink {
    var base: array<byte>
    var pos: nat
    var out: seq<byte>
    var same: nat
    var pendEq: nat
    var diff: seq<byte>
    var overflow: bool
    ghost var was: seq<byte>
    ghost var fed: seq<byte>
    ghost var rs: seq<Rec>

    /** The snapshot is new up to `pos` and old after it. */
    ghost predicate Halfway()
      reads `base, `pos, `was, `fed, base
    {
      && base.Length == |was| && pos == |fed| <= |was|
      && base[..pos] == fed && base[pos..] == was[pos..]
    }

    /** What has been written out: the header and the finished records. */
    ghost predicate Written()
      reads `out, `was, `rs
    {
      out == PutU64(|was|) + Encode(rs)
    }

    /** The fields hold the scan of what has been fed. */
    ghost predicate Holds(s: Scan, k: nat)
      reads `same, `pendEq, `diff, `was, `rs
    {
      && rs == s.rs && same == s.same && diff == s.diff && pendEq == |s.pend|
      && pendEq <= k <= |was| && s.pend == was[k - pendEq..k]
    }

    ghost predicate Valid()
      reads `base, `pos, `out, `same, `pendEq, `diff, `was, `fed, `rs, base
    {
      Halfway() && Written() && Holds(ScanOf(was, fed), pos)
    }

    constructor (snapshot: array<byte>)
      ensures fresh(this) && base == snapshot && Valid() && !overflow
      ensures was == snapshot[..] && fed == []
    {
      base, pos, same, pendEq, diff, overflow := snapshot, 0, 0, 0, [], false;
      was, fed, rs := snapshot[..], [], [];
      out := PutU64(snapshot.Length);
      new;
      assert Encode([]) == [];
    }

    /** Start again on a snapshot. */
    method Begin(snapshot: array<byte>)
      modifies this
      ensures base == snapshot && Valid() && !overflow
      ensures was == snapshot[..] && fed == []
    {
      base, pos, same, pendEq, diff, overflow := snapshot, 0, 0, 0, [], false;
      out := PutU64(snapshot.Length);
      was, fed, rs := snapshot[..], [], [];
      assert Encode([]) == [];
    }

    /** Write out the open record. */
    method Pair()
      requires Written()
      modifies this`out, this`diff, this`rs
      ensures diff == [] && rs == old(rs) + [Rec(same, old(diff))]
      ensures Written()
    {
      ghost var r := Rec(same, diff);
      assert (rs + [r])[..|rs|] == rs;
      out := out + (PutU32(same) + PutU32(|diff|) + diff);
      rs := rs + [r];
      diff := [];
    }

    /** n equal bytes at `pos`. */
    method Eq(n: nat)
      requires n > 0 && pos + n <= base.Length && Valid() && base[pos..pos + n] == was[pos..pos + n]
      modifies this`out, this`same, this`pendEq, this`diff, this`rs
      ensures Written() && Holds(EatEqual(ScanOf(was, fed), was[pos..pos + n]), pos + n)
    {
      hide ScanOf, Encode, PutU32, PutU64, Written, EatEqual;
      ScanIsTidy(was, fed);
      EatPend(ScanOf(was, fed), was, pos, n);
      if diff == [] { same := same + n; return; }
      pendEq := pendEq + n;
      if pendEq >= GAP {
        Pair();
        same := pendEq;
        pendEq := 0;
      }
    }

    /** The different bytes `src` at `pos`: the old ones become literals and are overwritten. */
    method Ne(src: seq<byte>)
      requires src != [] && pos + |src| <= base.Length && Valid()
      modifies this`diff, this`pendEq, base
      ensures Holds(EatDifferent(ScanOf(was, fed), was[pos..pos + |src|]), pos + |src|)
      ensures base[..] == fed + src + was[pos + |src|..]
    {
      hide ScanOf, Encode, PutU32, PutU64, Written, EatDifferent, Holds;
      ToLiterals(|src|);
      Overwrite(src);
    }

    /** What was held back and n bytes at `pos` become literals. */
    method ToLiterals(n: nat)
      requires pos + n <= base.Length && Valid()
      modifies this`diff, this`pendEq
      ensures Holds(EatDifferent(ScanOf(was, fed), was[pos..pos + n]), pos + n)
    {
      hide ScanOf, Encode, PutU32, PutU64, Written, EatDifferent;
      ghost var s := ScanOf(was, fed);
      HeldBack(s);
      Onward(base[..], was, pos, n);
      DifferentIs(s, was, pos, n);
      if pendEq != 0 {
        diff := diff + base[pos - pendEq..pos];
        pendEq := 0;
      }
      diff := diff + base[pos..pos + n];
    }

    /** memcpy over the snapshot at `pos`. */
    method Overwrite(src: seq<byte>)
      requires Halfway() && pos + |src| <= base.Length
      modifies base
      ensures base[..] == fed + src + was[pos + |src|..]
    {
      ghost var e := pos + |src|;
      assert base[e..] == was[e..] by { assert base[e..] == base[pos..][|src|..]; }
      forall k | 0 <= k < |src| { base[pos + k] := src[k]; }
      assert base[..pos] == fed && base[pos..e] == src && base[e..] == was[e..];
      assert base[..] == base[..pos] + base[pos..e] + base[e..];
    }

    /** The equal bytes held back are still in the snapshot, old and new alike. */
    lemma HeldBack(s: Scan)
      requires Valid() && s == ScanOf(was, fed)
      ensures pendEq <= pos && base[pos - pendEq..pos] == s.pend
    {
      assert fed[..pos] == fed;
      PadTo(fed, was);
      ScanIsConsistent(was, fed + was[pos..], pos);
    }

    /** The memcmp loops of `Feed`: from offset j of the piece p, whose offset i stands at `pos`, step over equal
        blocks of `width` bytes. */
    method SameBlocks(p: seq<byte>, i: nat, from: nat, width: nat) returns (j: nat)
      requires i <= from <= |p| && pos + |p| - i <= base.Length && width > 0
      requires base[pos..pos + from - i] == p[i..from]
      ensures from <= j <= |p| && base[pos..pos + j - i] == p[i..j]
      ensures j + width > |p| || base[pos + j - i..pos + j - i + width] != p[j..j + width]
    {
      j := from;
      while j + width <= |p| && base[pos + j - i..pos + j - i + width] == p[j..j + width]
        invariant from <= j <= |p| && base[pos..pos + j - i] == p[i..j]
      {
        RunsJoin(base[..], pos, p, i, j - i, width);
        j := j + width;
      }
    }

    method LongestEqual(p: seq<byte>, i: nat) returns (j: nat)
      requires i < |p| && pos + |p| - i <= base.Length
      ensures i <= j <= |p| && base[pos..pos + j - i] == p[i..j]
      ensures j < |p| ==> p[j] != base[pos + j - i]
    {
      j := SameBlocks(p, i, i, 1024);
      j := SameBlocks(p, i, j, 32);
      j := SameBlocks(p, i, j, 8);
      j := SameBlocks(p, i, j, 1);
    }

    /** The longest equal run at `pos`. */
    method FeedEqual(p: seq<byte>, i: nat) returns (j: nat)
      requires Valid() && i < |p| && pos + |p| - i <= base.Length
      modifies this`out, this`same, this`pendEq, this`diff, this`rs, this`pos, this`fed
      ensures Valid() && i <= j <= |p| && pos == old(pos) + (j - i) && fed == old(fed) + p[i..j]
      ensures j < |p| ==> p[j] != base[pos]
    {
      hide ScanOf, Holds, EatEqual, PutU64, Encode;
      j := LongestEqual(p, i);
      if j > i {
        ghost var n := j - i;
        Onward(base[..], was, pos, n);
        EqualRun(was, fed, n);
        Eq(j - i);
        assert was[pos..pos + n] == p[i..j];
        fed := fed + p[i..j];
        pos := pos + (j - i);
        assert Holds(ScanOf(was, fed), pos);
      } else {
        assert fed + p[i..j] == fed;
      }
    }

    /** The longest different run at `pos`, not empty. */
    method FeedDifferent(p: seq<byte>, i: nat) returns (k: nat)
      requires Valid() && i < |p| && pos + |p| - i <= base.Length && p[i] != base[pos]
      modifies this`diff, this`pendEq, this`pos, this`fed, base
      ensures Valid() && i < k <= |p| && pos == old(pos) + (k - i) && fed == old(fed) + p[i..k]
    {
      hide ScanOf, Holds, EatDifferent, PutU64, Encode;
      k := LongestDifferent(p, i);
      ghost var src := p[i..k];
      forall m | 0 <= m < |src| ensures src[m] != was[pos + m] {
        assert base[pos..][m] == was[pos..][m];
      }
      DifferentRun(was, fed, src);
      Ne(p[i..k]);
      fed := fed + src;
      pos := pos + (k - i);
    }

    method LongestDifferent(p: seq<byte>, i: nat) returns (k: nat)
      requires i < |p| && pos + |p| - i <= base.Length && p[i] != base[pos]
      ensures i < k <= |p| && forall m | i <= m < k :: p[m] != base[pos + m - i]
    {
      k := i + 1;
      while k < |p| && p[k] != base[pos + k - i]
        invariant i < k <= |p| && forall m | i <= m < k :: p[m] != base[pos + m - i]
      {
        k := k + 1;
      }
    }

    /** One piece of the new state. A piece that does not fit is refused for good and changes nothing. */
    method Feed(p: seq<byte>)
      requires Valid()
      modifies this`out, this`same, this`pendEq, this`diff, this`rs, this`pos, this`fed, this`overflow, base
      ensures Valid() && overflow == (old(overflow) || |old(fed)| + |p| > |was|)
      ensures fed == if overflow then old(fed) else old(fed) + p
    {
      hide Holds, ScanOf, PutU64, Encode;
      if overflow || pos + |p| > base.Length { overflow := true; return; }
      var i := 0;
      assert old(fed) + p[..0] == old(fed);
      while i < |p|
        invariant i <= |p| && Valid() && !overflow && pos + |p| - i <= base.Length
        invariant fed == old(fed) + p[..i]
      {
        var j := FeedEqual(p, i);
        Pieces(old(fed), p, i, j);
        i := j;
        if i >= |p| { break; }
        var k := FeedDifferent(p, i);
        Pieces(old(fed), p, i, k);
        i := k;
      }
      assert p[..i] == p;
    }

    /** Close the delta. It stands when exactly as many bytes came as the snapshot holds; then it leads back from
        the new state, which is what the buffer now holds, to the snapshot it held. */
    method Finish() returns (ok: bool)
      requires Valid()
      modifies this`out, this`same, this`diff, this`rs
      ensures ok == (!overflow && |fed| == |was|)
      ensures ok ==> base[..] == fed && rs == Finished(ScanOf(was, fed)) && IsDelta(out, rs, fed, was)
    {
      hide ScanOf, PutU64, PutU32, Encode, Sound, Replay;
      if overflow || pos != base.Length { return false; }
      ScanIsTidy(was, fed);
      FinishedRebuilds(was, fed);
      assert base[..] == base[..pos];
      if |diff| != 0 {
        Pair();
        if pendEq != 0 {
          same := pendEq;
          Pair();
        }
      } else if same != 0 {
        Pair();
      }
      return true;
    }
  }

  /** Where old and new agree, the boundary between them moves without a write. */
  lemma Onward(b: seq<byte>, was: seq<byte>, pos: nat, n: nat)
    requires |b| == |was| && pos + n <= |b| && b[pos..] == was[pos..]
    ensures b[pos..pos + n] == was[pos..pos + n] && b[pos + n..] == was[pos + n..]
    ensures b[..pos + n] == b[..pos] + b[pos..pos + n]
  {
    assert b[pos..pos + n] == b[pos..][..n] && b[pos + n..] == b[pos..][n..];
  }

  lemma RunsJoin(a: seq<byte>, i: nat, b: seq<byte>, j: nat, n: nat, m: nat)
    requires i + n + m <= |a| && j + n + m <= |b|
    requires a[i..i + n] == b[j..j + n] && a[i + n..i + n + m] == b[j + n..j + n + m]
    ensures a[i..i + n + m] == b[j..j + n + m]
  {
    assert a[i..i + n + m] == a[i..i + n] + a[i + n..i + n + m];
    assert b[j..j + n + m] == b[j..j + n] + b[j + n..j + n + m];
  }

  lemma Pieces(pre: seq<byte>, p: seq<byte>, i: nat, j: nat)
    requires i <= j <= |p|
    ensures pre + p[..i] + p[i..j] == pre + p[..j]
  {
    assert p[..j] == p[..i] + p[i..j];
  }

  lemma PadTo(now: seq<byte>, was: seq<byte>)
    requires |now| <= |was|
    ensures (now + was[|now|..])[..|now|] == now
  {
  }
}
