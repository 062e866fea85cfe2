/** The backward deltas of the rewind tape: one decoder and the two encoders that feed it.
    A delta is the length of the old snapshot and a list of records, each a run copied from the new
    snapshot and then a run of literal old bytes. */
module RewindCodec {
  import opened Base
  import opened LittleEndian

  const MAX_STATE := 0x8000_0000
  const GAP := 16

  // ---- records ----

  datatype Rec = Rec(same: nat, diff: seq<byte>)

  function EncodeRec(r: Rec): seq<byte> {
    PutU32(r.same) + PutU32(|r.diff|) + r.diff
  }

  function Encode(rs: seq<Rec>): seq<byte> {
    if rs == [] then [] else Encode(rs[..|rs| - 1]) + EncodeRec(rs[|rs| - 1])
  }

  /** How many bytes the records rebuild. */
  function Size(rs: seq<Rec>): nat {
    if rs == [] then 0 else Size(rs[..|rs| - 1]) + rs[|rs| - 1].same + |rs[|rs| - 1].diff|
  }

  /** No record is empty, and every copied run lies inside `cur`. */
  ghost predicate Sound(rs: seq<Rec>, cur: seq<byte>) {
    rs == [] ||
    var init, r := rs[..|rs| - 1], rs[|rs| - 1];
    Sound(init, cur) && 0 < r.same + |r.diff| && Size(init) + r.same <= |cur|
  }

  /** What the records rebuild from `cur`. */
  ghost function Replay(rs: seq<Rec>, cur: seq<byte>): (b: seq<byte>)
    requires Sound(rs, cur)
    ensures |b| == Size(rs)
  {
    if rs == [] then []
    else
      var init, r := rs[..|rs| - 1], rs[|rs| - 1];
      Replay(init, cur) + cur[Size(init)..Size(init) + r.same] + r.diff
  }

  lemma OneMoreRecord(rs: seq<Rec>, r: Rec, cur: seq<byte>)
    requires Sound(rs, cur) && 0 < r.same + |r.diff| && Size(rs) + r.same <= |cur|
    ensures Sound(rs + [r], cur) && Size(rs + [r]) == Size(rs) + r.same + |r.diff|
    ensures Replay(rs + [r], cur) == Replay(rs, cur) + cur[Size(rs)..Size(rs) + r.same] + r.diff
    ensures Encode(rs + [r]) == Encode(rs) + EncodeRec(r)
  {
    hide EncodeRec;
    assert (rs + [r])[..|rs|] == rs;
  }

  /** A backward delta from `cur` to `was`. */
  ghost predicate IsDelta(d: seq<byte>, rs: seq<Rec>, cur: seq<byte>, was: seq<byte>) {
    d == PutU64(|was|) + Encode(rs) && Sound(rs, cur) && Replay(rs, cur) == was
  }

  // ---- the decoder ----

  /** Records from offset p on, with `acc` of the `len` bytes already rebuilt. Each must advance. */
  function ApplyFrom(cur: seq<byte>, d: seq<byte>, p: nat, len: nat, acc: seq<byte>): (r: Option<seq<byte>>)
    requires |acc| <= len
    ensures r.Some? ==> |r.value| == len
    decreases len - |acc|
  {
    if |acc| == len then Some(acc)
    else if p + 8 > |d| then None
    else
      var i, same, diff := |acc|, GetU32(d, p), GetU32(d, p + 4);
      if i + same > len || i + same > |cur| || i + same + diff > len || p + 8 + diff > |d| then None
      else if same == 0 && diff == 0 then None
      else ApplyFrom(cur, d, p + 8 + diff, len, acc + cur[i..i + same] + d[p + 8..p + 8 + diff])
  }

  function Apply(cur: seq<byte>, d: seq<byte>): (r: Option<seq<byte>>)
    ensures r.Some? ==> |r.value| <= MAX_STATE
  {
    if |d| < 8 || GetU64(d, 0) > MAX_STATE then None else ApplyFrom(cur, d, 8, GetU64(d, 0), [])
  }

  method ApplyDelta(cur: seq<byte>, d: seq<byte>) returns (ok: bool, dst: seq<byte>)
    ensures ok == Apply(cur, d).Some?
    ensures ok ==> dst == Apply(cur, d).value
  {
    hide GetU32, GetU64;
    ok, dst := false, [];
    if |d| < 8 { return; }
    var oldLen := GetU64(d, 0);
    if oldLen > MAX_STATE { return; }
    var buf := new byte[oldLen](_ => 0);
    var p: nat, i: nat := 8, 0;
    while i < buf.Length
      invariant i <= buf.Length
      invariant ApplyFrom(cur, d, p, oldLen, buf[..i]) == Apply(cur, d)
    {
      if p + 8 > |d| { return; }
      var same, diff := GetU32(d, p), GetU32(d, p + 4);
      p := p + 8;
      if i + same > buf.Length || i + same > |cur| { return; }
      ghost var was := buf[..i];
      CopyInto(buf, i, cur[i..i + same]);
      assert buf[..i + same] == was + cur[i..i + same];
      i := i + same;
      if i + diff > buf.Length || p + diff > |d| { return; }
      was := buf[..i];
      CopyInto(buf, i, d[p..p + diff]);
      assert buf[..i + diff] == was + d[p..p + diff];
      p := p + diff;
      i := i + diff;
      if same == 0 && diff == 0 { return; }
    }
    assert buf[..i] == buf[..];
    return true, buf[..];
  }

  /** Sound records, encoded behind an eight-byte header, are decoded to what they rebuild. */
  lemma {:induction false} RecordsReplay(rs: seq<Rec>, cur: seq<byte>, len: nat, head: seq<byte>, d: seq<byte>)
    requires Sound(rs, cur) && Size(rs) <= len <= MAX_STATE
    requires |head| == 8 && head + Encode(rs) <= d
    ensures ApplyFrom(cur, d, 8, len, []) == ApplyFrom(cur, d, 8 + |Encode(rs)|, len, Replay(rs, cur))
    decreases |rs|
  {
    hide GetU32, EncodeRec;
    if rs != [] {
      var init, r := rs[..|rs| - 1], rs[|rs| - 1];
      assert head + Encode(rs) == head + Encode(init) + EncodeRec(r);
      assert head + Encode(init) <= d;
      RecordsReplay(init, cur, len, head, d);
      RecordStands(d, head + Encode(init), r);
      assert |EncodeRec(r)| == 8 + |r.diff| by { RecordLength(r); }
    }
  }

  lemma RecordLength(r: Rec)
    ensures |EncodeRec(r)| == 8 + |r.diff|
  {
  }

  lemma RecordStands(d: seq<byte>, head: seq<byte>, r: Rec)
    requires head + EncodeRec(r) <= d && r.same < 0x1_0000_0000 && |r.diff| < 0x1_0000_0000
    ensures var p := |head|;
            && p + 8 + |r.diff| <= |d|
            && GetU32(d, p) == r.same && GetU32(d, p + 4) == |r.diff| && d[p + 8..p + 8 + |r.diff|] == r.diff
  {
    hide PutU32, GetU32;
    var p := |head|;
    var w := EncodeRec(r);
    assert d[p..p + |w|] == w;
    assert d[p..p + 4] == w[..4] == PutU32(r.same);
    assert d[p + 4..p + 8] == w[4..8] == PutU32(|r.diff|);
    assert d[p + 8..p + 8 + |r.diff|] == w[8..] == r.diff;
    U32RoundTrip(d, p, r.same);
    U32RoundTrip(d, p + 4, |r.diff|);
  }

  /** Applying a backward delta to the new snapshot gives the old one, up to 2^31 bytes; beyond that the
      decoder refuses it. */
  lemma DeltaRestores(d: seq<byte>, rs: seq<Rec>, cur: seq<byte>, was: seq<byte>)
    requires IsDelta(d, rs, cur, was) && |was| < 0x1_0000_0000_0000_0000
    ensures Apply(cur, d) == if |was| <= MAX_STATE then Some(was) else None
  {
    hide PutU32, PutU64, GetU32, GetU64;
    assert d[0..8] == PutU64(|was|);
    U64RoundTrip(d, 0, |was|);
    if |was| <= MAX_STATE { RecordsReplay(rs, cur, |was|, PutU64(|was|), d); }
  }

  /** The decoder gives w exactly if sound records that rebuild it, of no more than 2^31 bytes, stand at the front of the
      delta behind its length; what comes after them does not count. */
  lemma DecoderIsExact(cur: seq<byte>, d: seq<byte>, w: seq<byte>)
    ensures Apply(cur, d) == Some(w) <==>
            |w| <= 0x8000_0000 && exists rs :: Rebuilds(rs, cur, w) && PutU64(|w|) + Encode(rs) <= d
  {
    hide PutU64, GetU64, Encode;
    if Apply(cur, d) == Some(w) {
      U64BackAgain(d, 0);
      Nothing(cur, d);
      var rs := Recovered(cur, d, 8, |w|, [], []);
      assert PutU64(|w|) + Encode(rs) <= d by { Behind(d, PutU64(|w|), Encode(rs)); }
    }
    if |w| <= 0x8000_0000 && exists rs :: Rebuilds(rs, cur, w) && PutU64(|w|) + Encode(rs) <= d {
      var rs :| Rebuilds(rs, cur, w) && PutU64(|w|) + Encode(rs) <= d;
      U64RoundTrip(d, 0, |w|) by { assert d[0..8] == PutU64(|w|); }
      RecordsReplay(rs, cur, |w|, PutU64(|w|), d);
    }
  }

  ghost predicate Rebuilds(rs: seq<Rec>, cur: seq<byte>, w: seq<byte>) {
    Sound(rs, cur) && Replay(rs, cur) == w
  }

  lemma Nothing(cur: seq<byte>, d: seq<byte>)
    ensures Rebuilds([], cur, []) && Encode([]) == [] && (|d| >= 8 ==> d[8..8] == [])
  {
  }

  lemma Behind(d: seq<byte>, head: seq<byte>, w: seq<byte>)
    requires |head| == 8 && 8 + |w| <= |d| && d[0..8] == head && d[8..8 + |w|] == w
    ensures head + w <= d
  {
    assert d[..8 + |w|] == d[0..8] + d[8..8 + |w|];
  }

  /** The records that have been read, and those still to be read. */
  lemma {:induction false} Recovered(cur: seq<byte>, d: seq<byte>, p: nat, len: nat, acc: seq<byte>, rs: seq<Rec>)
    returns (all: seq<Rec>)
    requires |acc| <= len && ApplyFrom(cur, d, p, len, acc).Some? && Rebuilds(rs, cur, acc)
    requires 8 <= p <= |d| && d[8..p] == Encode(rs)
    ensures Rebuilds(all, cur, ApplyFrom(cur, d, p, len, acc).value)
    ensures 8 + |Encode(all)| <= |d| && d[8..8 + |Encode(all)|] == Encode(all)
    decreases len - |acc|
  {
    hide GetU32, EncodeRec, Encode, Sound, Replay;
    if |acc| == len {
      all := rs;
    } else {
      var same, diff := GetU32(d, p), GetU32(d, p + 4);
      var r := Rec(same, d[p + 8..p + 8 + diff]);
      OneMoreRecord(rs, r, cur);
      RecordWasWritten(d, p, r);
      assert d[8..p + 8 + diff] == d[8..p] + d[p..p + 8 + diff];
      all := Recovered(cur, d, p + 8 + diff, len, acc + cur[|acc|..|acc| + same] + r.diff, rs + [r]);
    }
  }

  lemma RecordWasWritten(d: seq<byte>, p: nat, r: Rec)
    requires p + 8 <= |d| && r.same == GetU32(d, p) && |r.diff| == GetU32(d, p + 4)
    requires p + 8 + |r.diff| <= |d| && r.diff == d[p + 8..p + 8 + |r.diff|]
    ensures EncodeRec(r) == d[p..p + 8 + |r.diff|]
  {
    U32BackAgain(d, p);
    U32BackAgain(d, p + 4);
    hide PutU32, GetU32;
    assert d[p..p + 8 + |r.diff|] == d[p..p + 4] + d[p + 4..p + 8] + d[p + 8..p + 8 + |r.diff|];
  }

  // ---- the whole-snapshot encoder ----

  /** The aligned words at byte offset i agree. */
  ghost predicate SameWord(cur: seq<byte>, was: seq<byte>, i: nat)
    requires i + 4 <= |cur| && i + 4 <= |was|
  {
    cur[i..i + 4] == was[i..i + 4]
  }

  /** The literal bytes that was[..i] takes: four for each word that differs, and every byte past the
      last whole common word. */
  ghost function Cost(cur: seq<byte>, was: seq<byte>, whole: nat, i: nat): nat
    requires whole <= |cur| && whole <= |was|
    decreases i
  {
    if i > whole then Cost(cur, was, whole, whole) + (i - whole)
    else if i < 4 then 0
    else Cost(cur, was, whole, i - 4) + (if SameWord(cur, was, i - 4) then 0 else 4)
  }

  /** Where the last whole word common to both snapshots ends. */
  function Whole(cur: seq<byte>, was: seq<byte>): (n: nat)
    ensures n % 4 == 0 && n <= |cur| && n <= |was| && (n + 4 > |cur| || n + 4 > |was|)
  {
    (if |cur| < |was| then |cur| else |was|) / 4 * 4
  }

  ghost function Literals(rs: seq<Rec>): nat {
    if rs == [] then 0 else Literals(rs[..|rs| - 1]) + |rs[|rs| - 1].diff|
  }

  lemma LiteralsMore(rs: seq<Rec>, r: Rec)
    ensures Literals(rs + [r]) == Literals(rs) + |r.diff|
  {
    assert (rs + [r])[..|rs|] == rs;
  }

  /** A covering list of records whose literals are the words that differ and the tail past the last whole
      common word: the encoder pays for nothing else. */
  method MakeDelta(cur: seq<byte>, was: seq<byte>) returns (out: seq<byte>, ghost rs: seq<Rec>)
    ensures IsDelta(out, rs, cur, was)
    ensures |was| < 0x1_0000_0000_0000_0000 ==> Apply(cur, out) == if |was| <= MAX_STATE then Some(was) else None
    ensures Literals(rs) == Cost(cur, was, Whole(cur, was), |was|)
  {
    hide PutU32, PutU64, Whole, SameWord, Cost, Encode, Literals, Sound, Replay, Size, Apply;
    out, rs := PutU64(|was|), [];
    var whole := Whole(cur, was);
    var i: nat := 0;
    NothingYet(cur, was, whole);
    while i < |was|
      invariant i <= |was| && (i < |was| ==> i % 4 == 0 && i <= whole)
      invariant out == PutU64(|was|) + Encode(rs)
      invariant Sound(rs, cur) && Size(rs) == i && Replay(rs, cur) == was[..i]
      invariant Literals(rs) == Cost(cur, was, whole, i)
      decreases |was| - i
    {
      var same := SameRun(cur, was, i, whole);
      var j := i + same;
      var diff := DiffRun(cur, was, j, whole);
      ghost var r := Rec(same, was[j..j + diff]);
      OneMoreRecord(rs, r, cur);
      Joined(was, i, j, diff);
      LiteralsMore(rs, r);
      out := out + (PutU32(same) + PutU32(diff) + was[j..j + diff]);
      rs := rs + [r];
      i := j + diff;
    }
    if |was| < 0x1_0000_0000_0000_0000 { DeltaRestores(out, rs, cur, was); }
  }

  lemma Joined(was: seq<byte>, i: nat, j: nat, diff: nat)
    requires i <= j && j + diff <= |was|
    ensures was[..j + diff] == was[..i] + was[i..j] + was[j..j + diff]
  {
  }

  lemma NothingYet(cur: seq<byte>, was: seq<byte>, whole: nat)
    requires whole <= |cur| && whole <= |was|
    ensures Encode([]) == [] && Sound([], cur) && Size([]) == 0 && Replay([], cur) == []
    ensures Literals([]) == 0 && Cost(cur, was, whole, 0) == 0
  {
  }

  /** Whole equal words from offset i on. */
  method SameRun(cur: seq<byte>, was: seq<byte>, i: nat, whole: nat) returns (same: nat)
    requires whole <= |cur| && whole <= |was| && whole % 4 == 0 && i % 4 == 0 && i <= whole
    ensures (i + same) % 4 == 0 && i + same <= whole && cur[i..i + same] == was[i..i + same]
    ensures i + same < whole ==> !SameWord(cur, was, i + same)
    ensures Cost(cur, was, whole, i + same) == Cost(cur, was, whole, i)
  {
    hide Cost;
    same := 0;
    while i + same + 4 <= whole && cur[i + same..i + same + 4] == was[i + same..i + same + 4]
      invariant (i + same) % 4 == 0 && i + same <= whole && cur[i..i + same] == was[i..i + same]
      invariant Cost(cur, was, whole, i + same) == Cost(cur, was, whole, i)
    {
      OneMoreWord(cur, was, whole, i + same);
      RunGrows(cur, was, i, i + same);
      same := same + 4;
    }
  }

  lemma OneMoreWord(cur: seq<byte>, was: seq<byte>, whole: nat, i: nat)
    requires i + 4 <= whole <= |cur| && whole <= |was|
    ensures Cost(cur, was, whole, i + 4) == Cost(cur, was, whole, i) + if SameWord(cur, was, i) then 0 else 4
  {
  }

  lemma RunGrows(cur: seq<byte>, was: seq<byte>, i: nat, j: nat)
    requires i <= j && j + 4 <= |cur| && j + 4 <= |was| && SameWord(cur, was, j) && cur[i..j] == was[i..j]
    ensures cur[i..j + 4] == was[i..j + 4]
  {
    assert cur[i..j + 4] == cur[i..j] + cur[j..j + 4];
    assert was[i..j + 4] == was[i..j] + was[j..j + 4];
  }

  /** Different words from offset j on, and the rest of the old snapshot once no whole common word is left. */
  method DiffRun(cur: seq<byte>, was: seq<byte>, j: nat, whole: nat) returns (diff: nat)
    requires whole <= |cur| && whole <= |was| && whole % 4 == 0 && j % 4 == 0 && j <= whole
    requires j < whole ==> !SameWord(cur, was, j)
    ensures j + diff <= |was| && (j < |was| ==> diff > 0)
    ensures j + diff < |was| ==> (j + diff) % 4 == 0 && j + diff <= whole
    ensures Cost(cur, was, whole, j + diff) == Cost(cur, was, whole, j) + diff
  {
    hide Cost;
    diff := 0;
    while j + diff < |was|
      invariant j + diff <= |was|
      invariant j + diff < |was| ==> (j + diff) % 4 == 0 && j + diff <= whole
      invariant diff == 0 && j < whole ==> !SameWord(cur, was, j)
      invariant Cost(cur, was, whole, j + diff) == Cost(cur, was, whole, j) + diff
    {
      if j + diff + 4 <= whole && cur[j + diff..j + diff + 4] == was[j + diff..j + diff + 4] { break; }
      var adv := if j + diff + 4 <= whole then 4 else |was| - (j + diff);
      assert (j + diff + 4) % 4 == 0;
      if j + diff + 4 <= whole {
        OneMoreWord(cur, was, whole, j + diff);
      } else {
        TailCost(cur, was, whole, j + diff);
      }
      diff := diff + adv;
    }
  }

  lemma TailCost(cur: seq<byte>, was: seq<byte>, whole: nat, i: nat)
    requires i <= whole < i + 4 && whole <= |cur| && whole <= |was| && whole % 4 == 0 && i % 4 == 0
    ensures Cost(cur, was, whole, |was|) == Cost(cur, was, whole, i) + (|was| - i)
  {
    hide SameWord;
    assert i == whole;
    if |was| > whole { assert Cost(cur, was, whole, |was|) == Cost(cur, was, whole, whole) + (|was| - whole); }
  }
}
