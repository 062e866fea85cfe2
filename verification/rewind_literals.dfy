/** Which bytes of the old snapshot the in-place encoder copies into the delta: those that differ, and those of an equal
    run of fewer than 16 between two that differ, which are too few to pay for another record. */
module RewindLiterals {
  import opened Base
  import opened RewindCodec
  import opened RewindSink

  ghost predicate Differs(was: seq<byte>, now: seq<byte>, p: nat) { p < |was| && p < |now| && was[p] != now[p] }

  /** Byte p differs, or those around it that differ are at most 16 apart. */
  ghost predicate Worth(was: seq<byte>, now: seq<byte>, p: nat) {
    Differs(was, now, p) ||
    exists a: nat, b: nat | a < p < b <= a + 16 :: Differs(was, now, a) && Differs(was, now, b)
  }

  ghost function Marks(b: bool, n: nat): (m: seq<bool>)
    ensures |m| == n && forall i | 0 <= i < n :: m[i] == b
  {
    seq(n, _ => b)
  }

  /** Of each byte of the old snapshot, whether the records spell it out. */
  ghost function Mask(rs: seq<Rec>): (m: seq<bool>)
    ensures |m| == Size(rs)
  {
    if rs == [] then []
    else
      var r := rs[|rs| - 1];
      Mask(rs[..|rs| - 1]) + Marks(false, r.same) + Marks(true, |r.diff|)
  }

  /** The same of a scan, up to the bytes that it holds back. */
  ghost function Open(s: Scan): seq<bool> {
    Mask(s.rs) + Marks(false, s.same) + Marks(true, |s.diff|)
  }

  lemma MaskMore(rs: seq<Rec>, r: Rec)
    ensures Mask(rs + [r]) == Mask(rs) + Marks(false, r.same) + Marks(true, |r.diff|)
  {
    assert (rs + [r])[..|rs|] == rs;
  }

  /** What one byte does to the mask. */
  lemma OpenStep(s: Scan, o: byte, n: byte)
    requires Tidy(s)
    ensures var e, h := Eat(s, o, n), |s.pend|;
            if o != n then Open(e) == Open(s) + Marks(true, h + 1) && e.diff != [] && e.pend == []
            else if s.diff == [] then Open(e) == Open(s) + Marks(false, 1) && e.diff == e.pend == []
            else if h < 15 then Open(e) == Open(s) && e.diff != [] && |e.pend| == h + 1
            else Open(e) == Open(s) + Marks(false, h + 1) && e.diff == e.pend == []
  {
    hide Mask;
    MaskMore(s.rs, Rec(s.same, s.diff));
  }

  /** The last of them that differs is more than 16 back. */
  ghost predicate Far(was: seq<byte>, now: seq<byte>, p: nat) {
    forall a: nat | a <= p && Differs(was, now, a) :: |now| - a > 16
  }

  /** A scan of `now`: what is spelled out is worth it; what is not never will be, whatever comes; and what is held back
      is equal and follows a byte that differs. */
  ghost predicate Sorted(m: seq<bool>, h: nat, open: bool, was: seq<byte>, now: seq<byte>) {
    && |m| + h == |now| <= |was|
    && (forall p: nat | p < |m| && m[p] :: Worth(was, now, p))
    && (forall p: nat | p < |m| && !m[p] :: !Worth(was, now, p) && Far(was, now, p))
    && (forall p: nat | |m| <= p < |now| :: !Differs(was, now, p))
    && if open then m != [] && Differs(was, now, |m| - 1) else h == 0 && (m != [] ==> !m[|m| - 1])
  }

  lemma DiffersMore(was: seq<byte>, now: seq<byte>, x: byte, p: nat)
    requires |now| < |was|
    ensures Differs(was, now + [x], p) <==> Differs(was, now, p) || (p == |now| && was[p] != x)
  {
  }

  lemma WorthStays(was: seq<byte>, now: seq<byte>, x: byte, p: nat)
    requires |now| < |was| && Worth(was, now, p)
    ensures Worth(was, now + [x], p)
  {
    forall a: nat { DiffersMore(was, now, x, a); }
  }

  lemma FarStays(was: seq<byte>, now: seq<byte>, x: byte, p: nat)
    requires p < |now| < |was| && !Worth(was, now, p) && Far(was, now, p)
    ensures !Worth(was, now + [x], p) && Far(was, now + [x], p)
  {
    forall a: nat ensures Differs(was, now + [x], a) <==> Differs(was, now, a) || (a == |now| && was[a] != x) {
      DiffersMore(was, now, x, a);
    }
  }

  /** A byte that differs is spelled out, and so are those that were held back. */
  lemma SortedDiffers(m: seq<bool>, h: nat, open: bool, was: seq<byte>, now: seq<byte>, x: byte)
    requires Sorted(m, h, open, was, now) && h < 16 && |now| < |was| && was[|now|] != x
    ensures Sorted(m + Marks(true, h + 1), 0, true, was, now + [x])
  {
    hide Worth, Far, Differs;
    var next, n := now + [x], |now|;
    forall p: nat { DiffersMore(was, now, x, p); }
    forall p: nat | p < |m| + h + 1 && (p < |m| ==> m[p]) ensures Worth(was, next, p) {
      if p < |m| { WorthStays(was, now, x, p); } else { HeldBack(was, next, |m| - 1, p, n); }
    }
    forall p: nat | p < |m| && !m[p] ensures !Worth(was, next, p) && Far(was, next, p) { FarStays(was, now, x, p); }
  }

  lemma HeldBack(was: seq<byte>, now: seq<byte>, a: int, p: nat, b: nat)
    requires a < p <= b <= a + 16 && Differs(was, now, b) && (p < b ==> a >= 0 && Differs(was, now, a))
    ensures Worth(was, now, p)
  {
  }

  /** An equal byte is held back, or goes into the run of equal bytes, the open one or a new one of at least 16. */
  lemma SortedEqual(m: seq<bool>, h: nat, open: bool, was: seq<byte>, now: seq<byte>, x: byte)
    requires Sorted(m, h, open, was, now) && |now| < |was| && was[|now|] == x
    ensures open ==> Sorted(m, h + 1, true, was, now + [x])
    ensures open ==> h < 15 || Sorted(m + Marks(false, h + 1), 0, false, was, now + [x])
    ensures !open ==> Sorted(m + Marks(false, 1), 0, false, was, now + [x])
  {
    hide Worth, Far, Differs;
    var next := now + [x];
    forall p: nat ensures Differs(was, next, p) <==> Differs(was, now, p) { DiffersMore(was, now, x, p); }
    forall p: nat | |m| <= p < |next| ensures !Differs(was, next, p) { Inside(was, now, p); }
    forall p: nat | p < |m| && m[p] ensures Worth(was, next, p) { WorthStays(was, now, x, p); }
    forall p: nat | p < |m| && !m[p] ensures !Worth(was, next, p) && Far(was, next, p) { FarStays(was, now, x, p); }
    if !open {
      if m != [] { assert Far(was, now, |m| - 1); }
      forall a: nat | Differs(was, next, a) ensures a < |m| && |next| - a > 16 { FarIs(was, now, |m| - 1, a); }
      Behind(was, next, |m|, |m|);
    } else if h >= 15 {
      forall a: nat | Differs(was, next, a) ensures a < |m| && |next| - a > 16 { Inside(was, now, a); }
      forall p: nat | |m| <= p < |next| ensures !Worth(was, next, p) && Far(was, next, p) { Behind(was, next, |m|, p); }
    }
  }

  lemma Inside(was: seq<byte>, now: seq<byte>, a: nat)
    ensures Differs(was, now, a) ==> a < |now|
  {
  }

  lemma FarIs(was: seq<byte>, now: seq<byte>, p: int, a: nat)
    requires p + 1 == |now| && (p >= 0 ==> Far(was, now, p))
    ensures Differs(was, now, a) ==> a <= p && |now| - a > 16
  {
  }

  lemma Behind(was: seq<byte>, now: seq<byte>, k: nat, p: nat)
    requires k <= p && forall a: nat | Differs(was, now, a) :: a < k && |now| - a > 16
    ensures !Worth(was, now, p) && Far(was, now, p)
  {
  }

  lemma {:induction false} ScanIsSorted(was: seq<byte>, now: seq<byte>)
    requires |now| <= |was|
    ensures var s := ScanOf(was, now); Tidy(s) && Sorted(Open(s), |s.pend|, s.diff != [], was, now)
    decreases |now|
  {
    ScanIsTidy(was, now);
    if now != [] {
      var k := |now| - 1;
      var s, init, o, x := ScanOf(was, now[..k]), now[..k], was[k], now[k];
      ScanIsSorted(was, init);
      assert now == init + [x];
      OpenStep(s, o, x);
      hide Sorted, Open, ScanOf, Eat;
      var m, h, open := Open(s), |s.pend|, s.diff != [];
      if o != x { SortedDiffers(m, h, open, was, init, x); } else { SortedEqual(m, h, open, was, init, x); }
      assert ScanOf(was, now) == Eat(s, o, x) by { LastByte(was, now); }
    }
  }

  lemma LastByte(was: seq<byte>, now: seq<byte>)
    requires 0 < |now| <= |was|
    ensures ScanOf(was, now) == Eat(ScanOf(was, now[..|now| - 1]), was[|now| - 1], now[|now| - 1])
  {
  }

  /** Of a finished delta: byte p is copied into it if and only if it is worth it. */
  lemma CopiedIffWorth(was: seq<byte>, now: seq<byte>, p: nat)
    requires |was| == |now| && p < |was|
    ensures var copied := Mask(Finished(ScanOf(was, now)));
            |copied| == |was| && (copied[p] <==> Worth(was, now, p))
  {
    var s := ScanOf(was, now);
    ScanIsSorted(was, now);
    MaskFinished(s);
    hide Mask, Finished, ScanOf, Far, Worth, Differs, Open;
    var m := Open(s);
    if p >= |m| { NeverWorth(was, now, |m|, p); }
  }

  lemma NeverWorth(was: seq<byte>, now: seq<byte>, k: nat, p: nat)
    requires k <= p < |now| && forall a: nat | k <= a < |now| :: !Differs(was, now, a)
    ensures !Worth(was, now, p)
  {
  }

  lemma MaskFinished(s: Scan)
    requires Tidy(s)
    ensures Mask(Finished(s)) == Open(s) + Marks(false, |s.pend|)
  {
    hide Mask;
    var r, e := Rec(s.same, s.diff), Rec(|s.pend|, []);
    MaskMore(s.rs, r);
    MaskMore(s.rs, Rec(s.same, []));
    MaskMore(s.rs + [r], e);
    assert s.rs + [r] + [] == s.rs + [r];
    assert Finished(s) == if s.diff == [] then (if s.same > 0 then s.rs + [Rec(s.same, [])] else s.rs)
                          else if s.pend == [] then s.rs + [r] else s.rs + [r] + [e];
  }
}
