/** Directories of the synthetic volume: 32-byte slots, a short entry for each child with the parts of its long name
    before it, and a reader that follows the rules of the FAT specification. */
module FatDir {
  import opened Base
  import opened LittleEndian

  const SLOT := 32
  const FREE := 0xE5                // the first byte of a slot no longer in use
  const ATTR_DIR := 0x10
  const ATTR_FILE := 0x20
  const ATTR_LONG := 0x0F

  type u16 = x: int | 0 <= x < 0x1_0000

  /** A short name, and the code units of the long one if there is one. */
  datatype Name = Name(sfn: seq<byte>, lfn: seq<u16>)

  datatype Entry = Entry(name: Name, dir: bool, first: nat, size: nat)

  /** Names as host file systems allow them, and numbers that fit their fields. */
  ghost predicate Proper(e: Entry) {
    && |e.name.sfn| == 11 && e.name.sfn[0] != 0 && e.name.sfn[0] != FREE && |e.name.lfn| <= 255
    && (forall i | 0 <= i < |e.name.lfn| :: e.name.lfn[i] != 0)
    && e.first < 0x1_0000_0000 && e.size < 0x1_0000_0000 && (e.dir ==> e.size == 0)
  }

  // ---- slots ----

  function Parts(lfn: seq<u16>): nat { (|lfn| + 12) / 13 }

  /** The checksum that ties the parts of a long name to its short entry. */
  function LfnSum(sfn: seq<byte>): byte
    decreases |sfn|
  {
    if sfn == [] then 0 else Rotate(LfnSum(sfn[..|sfn| - 1]), sfn[|sfn| - 1])
  }

  function Rotate(s: byte, c: byte): byte {
    (s % 2 * 128 + s / 2 + c) % 256
  }

  /** Bit by bit: an 8-bit rotation to the right by one, and then an addition that wraps. */
  lemma RotateIs(b: seq<nat>, c: byte)
    requires |b| == 8 && forall i | 0 <= i < 8 :: b[i] < 2
    ensures Rotate(b[0] + 2 * b[1] + 4 * b[2] + 8 * b[3] + 16 * b[4] + 32 * b[5] + 64 * b[6] + 128 * b[7], c) ==
            (b[1] + 2 * b[2] + 4 * b[3] + 8 * b[4] + 16 * b[5] + 32 * b[6] + 64 * b[7] + 128 * b[0] + c) % 256
  {
  }

  /** What the sum is for: of two names that differ in one character it shows which is which. */
  lemma {:induction false} OneCharacterShows(a: seq<byte>, b: seq<byte>, k: nat)
    requires |a| == |b| && k < |a| && a[k] != b[k] && forall i | 0 <= i < |a| && i != k :: a[i] == b[i]
    ensures LfnSum(a) != LfnSum(b)
    decreases |a|
  {
    var n := |a| - 1;
    if k == n {
      assert a[..n] == b[..n];
      SumShows(LfnSum(a[..n]), a[n], b[n]);
    } else {
      OneCharacterShows(a[..n], b[..n], k);
      SumKeeps(LfnSum(a[..n]), LfnSum(b[..n]), a[n]);
    }
  }

  /** Each step is a bijection, of the sum so far and of the character. */
  lemma SumShows(s: byte, c: byte, d: byte)
    ensures Rotate(s, c) == Rotate(s, d) ==> c == d
  {
  }

  lemma SumKeeps(s: byte, t: byte, c: byte)
    ensures Rotate(s, c) == Rotate(t, c) ==> s == t
  {
    var u, v := s % 2 * 128 + s / 2, t % 2 * 128 + t / 2;
    if Rotate(s, c) == Rotate(t, c) { SameWithout(u, v, c); }
  }

  lemma SameWithout(u: byte, v: byte, c: byte)
    requires (u + c) % 256 == (v + c) % 256
    ensures u == v
  {
  }

  /** The checksum of README~1.TXT. */
  lemma ReadmeSum(sfn: seq<byte>)
    requires |sfn| == 11 && sfn[0] == 0x52 && sfn[1] == 0x45 && sfn[2] == 0x41 && sfn[3] == 0x44 && sfn[4] == 0x4D
    requires sfn[5] == 0x45 && sfn[6] == 0x7E && sfn[7] == 0x31 && sfn[8] == 0x54 && sfn[9] == 0x58 && sfn[10] == 0x54
    ensures LfnSum(sfn) == 107
  {
    SumsOnTheWay();
    hide LfnSum, Rotate;
    NextSum(sfn, 0);
    NextSum(sfn, 1);
    NextSum(sfn, 2);
    NextSum(sfn, 3);
    NextSum(sfn, 4);
    NextSum(sfn, 5);
    NextSum(sfn, 6);
    NextSum(sfn, 7);
    NextSum(sfn, 8);
    NextSum(sfn, 9);
    NextSum(sfn, 10);
    assert sfn[..11] == sfn;
  }

  lemma SumsOnTheWay()
    ensures Rotate(0, 0x52) == 82 && Rotate(82, 0x45) == 110 && Rotate(110, 0x41) == 120 && Rotate(120, 0x44) == 128
    ensures Rotate(128, 0x4D) == 141 && Rotate(141, 0x45) == 11 && Rotate(11, 0x7E) == 3 && Rotate(3, 0x31) == 178
    ensures Rotate(178, 0x54) == 173 && Rotate(173, 0x58) == 46 && Rotate(46, 0x54) == 107
  {
  }

  lemma NextSum(sfn: seq<byte>, i: nat)
    requires i < |sfn|
    ensures LfnSum(sfn[..i + 1]) == Rotate(if i == 0 then 0 else LfnSum(sfn[..i]), sfn[i])
  {
    assert sfn[..i + 1][..i] == sfn[..i];
  }

  method Checksum(sfn: seq<byte>) returns (s: byte)
    ensures s == LfnSum(sfn)
  {
    s := 0;
    for i := 0 to |sfn|
      invariant s == LfnSum(sfn[..i])
    {
      assert sfn[..i + 1][..i] == sfn[..i];
      s := Rotate(s, sfn[i]);
    }
    assert sfn[..|sfn|] == sfn;
  }

  /** Code unit ci of a long name: one zero ends it, and the rest of the last part is filled up. */
  function UnitAt(lfn: seq<u16>, ci: nat): u16 {
    if ci < |lfn| then lfn[ci] else if ci == |lfn| then 0 else 0xFFFF
  }

  /** Where the k-th of the thirteen units of a part lies. */
  function OffsetOf(k: nat): nat
    requires k < 13
  {
    if k < 5 then 1 + 2 * k else if k < 11 then 14 + 2 * (k - 5) else 28 + 2 * (k - 11)
  }

  function LowByte(u: u16): byte { u % 256 }

  function HighByte(u: u16): byte { u / 256 }

  /** Five units, three bytes, six units, two bytes, two units. */
  function LongSlot(lfn: seq<u16>, sum: byte, part: nat, last: bool): (s: seq<byte>)
    requires 1 <= part <= 20
    ensures |s| == SLOT
  {
    var number: byte := if last then part + 0x40 else part;
    var mark: seq<byte>, cluster: seq<byte> := [ATTR_LONG, 0, sum], [0, 0];
    [number] + Run(lfn, (part - 1) * 13, 5) + mark + Run(lfn, (part - 1) * 13 + 5, 6) + cluster +
    Run(lfn, (part - 1) * 13 + 11, 2)
  }

  /** n units from ci on, low bytes first. */
  function Run(lfn: seq<u16>, ci: nat, n: nat): (b: seq<byte>)
    ensures |b| == 2 * n
    decreases n
  {
    if n == 0 then []
    else Run(lfn, ci, n - 1) + [LowByte(UnitAt(lfn, ci + n - 1)), HighByte(UnitAt(lfn, ci + n - 1))]
  }

  lemma {:induction false} RunAt(lfn: seq<u16>, ci: nat, n: nat, k: nat)
    requires k < n
    ensures Run(lfn, ci, n)[2 * k] == LowByte(UnitAt(lfn, ci + k)) && Run(lfn, ci, n)[2 * k + 1] == HighByte(UnitAt(lfn, ci + k))
    decreases n
  {
    if k < n - 1 { RunAt(lfn, ci, n - 1, k); }
  }

  function ShortSlot(e: Entry): (s: seq<byte>)
    requires |e.name.sfn| == 11
    ensures |s| == SLOT
  {
    var clus := PutU32(e.first);
    e.name.sfn + [if e.dir then ATTR_DIR else ATTR_FILE, 0, 0] + [0, 0] + [0x21, 0x5C] + [0x21, 0x5C] +
    clus[2..] + [0, 0] + [0x21, 0x5C] + clus[..2] + PutU32(if e.dir then 0 else e.size)
  }

  /** The parts of a long name, from number `part` down. */
  function LongSlots(lfn: seq<u16>, sum: byte, part: nat): (ss: seq<seq<byte>>)
    requires part <= Parts(lfn) <= 20
    ensures |ss| == part && forall i | 0 <= i < |ss| :: |ss[i]| == SLOT
  {
    if part == 0 then []
    else [LongSlot(lfn, sum, part, part == Parts(lfn))] + LongSlots(lfn, sum, part - 1)
  }

  function Slots(e: Entry): (ss: seq<seq<byte>>)
    requires |e.name.sfn| == 11 && |e.name.lfn| <= 255
    ensures |ss| == Parts(e.name.lfn) + 1 && forall i | 0 <= i < |ss| :: |ss[i]| == SLOT
  {
    LongSlots(e.name.lfn, LfnSum(e.name.sfn), Parts(e.name.lfn)) + [ShortSlot(e)]
  }

  // ---- the reader ----

  /** A long name being gathered: its units so far, the number of the next part, and the checksum. */
  datatype Long = Long(units: seq<u16>, next: nat, sum: byte)

  function PartUnits(s: seq<byte>): (us: seq<u16>)
    requires |s| == SLOT
    ensures |us| == 13
  {
    seq(13, k requires 0 <= k < 13 => UnitIn(s, k))
  }

  function UnitIn(s: seq<byte>, k: nat): u16
    requires |s| == SLOT && k < 13
  {
    (s[OffsetOf(k)] as int) + 0x100 * (s[OffsetOf(k) + 1] as int)
  }

  /** The units before the first zero. */
  function Cut(us: seq<u16>): seq<u16> {
    if us == [] || us[0] == 0 then [] else [us[0]] + Cut(us[1..])
  }

  /** One more part: the first has its number marked, the others count down under the same checksum. */
  function Gather(g: Option<Long>, s: seq<byte>): Option<Long>
    requires |s| == SLOT
  {
    if s[0] > 0x40 then Some(Long(PartUnits(s), s[0] - 0x41, s[13]))
    else if g.Some? && s[0] == g.value.next && g.value.next > 0 && s[13] == g.value.sum then
      Some(Long(PartUnits(s) + g.value.units, g.value.next - 1, g.value.sum))
    else None
  }

  /** A long name counts if all its parts came and belong to the short entry. */
  function LongName(g: Option<Long>, sfn: seq<byte>): seq<u16> {
    if g.Some? && g.value.next == 0 && g.value.sum == LfnSum(sfn) then Cut(g.value.units) else []
  }

  /** The first cluster, in two halves. */
  function ClusterIn(s: seq<byte>): nat
    requires |s| == SLOT
  {
    (s[26] as int) + 0x100 * (s[27] as int) + 0x1_0000 * (s[20] as int) + 0x100_0000 * (s[21] as int)
  }

  function ReadShort(s: seq<byte>, g: Option<Long>): Entry
    requires |s| == SLOT
  {
    Entry(Name(s[..11], LongName(g, s[..11])), s[11] / 0x10 % 2 == 1,
          ClusterIn(s), GetU32(s, 28))
  }

  function Decode(ss: seq<seq<byte>>, g: Option<Long>): seq<Entry>
    requires forall i | 0 <= i < |ss| :: |ss[i]| == SLOT
    decreases |ss|
  {
    if ss == [] || ss[0][0] == 0 then []
    else if ss[0][0] == FREE then Decode(ss[1..], None)
    else if ss[0][11] % 0x40 == 0x0F then Decode(ss[1..], Gather(g, ss[0]))
    else [ReadShort(ss[0], g)] + Decode(ss[1..], None)
  }

  // ---- byte by byte ----

  /** A zero in front ends a directory, 0xE5 in front frees a slot, and so does no other byte. */
  lemma MarksAre(s: seq<byte>, rest: seq<seq<byte>>, g: Option<Long>)
    requires |s| == SLOT && forall i | 0 <= i < |rest| :: |rest[i]| == SLOT
    ensures var es := Decode([s] + rest, g);
            && (s[0] == 0 ==> es == [])
            && (s[0] == 0xE5 ==> es == Decode(rest, None))
            && (s[0] != 0 && s[0] != 0xE5 ==>
                  es == if s[11] % 64 == 0x0F then Decode(rest, Gather(g, s)) else [ReadShort(s, g)] + Decode(rest, None))
  {
    assert ([s] + rest)[1..] == rest;
  }

  /** Just enough parts for a name. */
  lemma PartsAre(lfn: seq<u16>)
    ensures |lfn| <= 13 * Parts(lfn) < |lfn| + 13
  {
  }

  const UNIT_OFFSETS: seq<nat> := [1, 3, 5, 7, 9, 14, 16, 18, 20, 22, 24, 28, 30]

  /** A part of a long name, as the FAT specification lays it out: its number, with bit 6 in the last one, the mark 0x0F,
      the checksum, thirteen units low byte first, of which those behind the name are one zero and then 0xFFFF, and
      zeros elsewhere. */
  lemma LongSlotIs(lfn: seq<u16>, sum: byte, part: nat, last: bool, k: nat)
    requires 1 <= part <= 20 && k < 13
    ensures var s := LongSlot(lfn, sum, part, last);
            var ci := (part - 1) * 13 + k;
            && s[0] == part + (if last then 0x40 else 0) && s[11] == 0x0F && s[12] == 0 && s[13] == sum && s[26] == s[27] == 0
            && UNIT_OFFSETS[k] < 31
            && (s[UNIT_OFFSETS[k]] as int) + 0x100 * (s[UNIT_OFFSETS[k] + 1] as int) ==
               if ci < |lfn| then lfn[ci] else if ci == |lfn| then 0 else 0xFFFF
  {
    LongSlotReads(lfn, sum, part, last, k);
    LongSlotMarks(lfn, sum, part, last);
    OffsetsAre(k);
    hide LongSlot, UNIT_OFFSETS, OffsetOf;
  }

  lemma OffsetsAre(k: nat)
    requires k < 13
    ensures UNIT_OFFSETS[k] == OffsetOf(k) < 31
  {
  }

  /** A short entry: the directory bit (4) or the archive bit (5) and no other; no times, and the first of January 2026 as
      all three dates. */
  lemma ShortSlotIs(e: Entry)
    requires |e.name.sfn| == 11
    ensures var s := ShortSlot(e);
            && s[..11] == e.name.sfn && s[11] == (if e.dir then 0x10 else 0x20) && s[12] == s[13] == 0
            && DateIn(s, 16) == DateIn(s, 18) == DateIn(s, 24) == Date(2026, 1, 1)
            && s[14] == s[15] == s[22] == s[23] == 0
  {
    hide PutU32;
  }

  datatype Date = Date(year: nat, month: nat, day: nat)

  /** Seven bits of years since 1980, four of the month, five of the day. */
  function DateIn(s: seq<byte>, p: nat): Date
    requires p + 2 <= |s|
  {
    var d := (s[p] as int) + 0x100 * (s[p + 1] as int);
    Date(1980 + d / 0x200, d / 0x20 % 0x10, d % 0x20)
  }

  // ---- round trips ----

  lemma LongSlotLayout(lfn: seq<u16>, sum: byte, part: nat, last: bool)
    requires 1 <= part <= 20
    ensures var s := LongSlot(lfn, sum, part, last);
            var ci := (part - 1) * 13;
            s[1..11] == Run(lfn, ci, 5) && s[14..26] == Run(lfn, ci + 5, 6) && s[28..32] == Run(lfn, ci + 11, 2)
  {
    hide Run;
  }

  lemma LongSlotReads(lfn: seq<u16>, sum: byte, part: nat, last: bool, k: nat)
    requires 1 <= part <= 20 && k < 13
    ensures UnitIn(LongSlot(lfn, sum, part, last), k) == UnitAt(lfn, (part - 1) * 13 + k)
  {
    hide LongSlot, UnitAt, Run;
    var ci := (part - 1) * 13;
    var s := LongSlot(lfn, sum, part, last);
    LongSlotLayout(lfn, sum, part, last);
    if k < 5 {
      RunAt(lfn, ci, 5, k);
      assert s[1 + 2 * k] == s[1..11][2 * k] && s[2 + 2 * k] == s[1..11][2 * k + 1];
    } else if k < 11 {
      var j := k - 5;
      RunAt(lfn, ci + 5, 6, j);
      assert s[14 + 2 * j] == s[14..26][2 * j] && s[15 + 2 * j] == s[14..26][2 * j + 1];
    } else {
      var j := k - 11;
      RunAt(lfn, ci + 11, 2, j);
      assert s[28 + 2 * j] == s[28..32][2 * j] && s[29 + 2 * j] == s[28..32][2 * j + 1];
    }
  }

  lemma LongSlotMarks(lfn: seq<u16>, sum: byte, part: nat, last: bool)
    requires 1 <= part <= 20
    ensures var s := LongSlot(lfn, sum, part, last);
            && s[0] == (if last then part + 0x40 else part) && s[11] == ATTR_LONG && s[12] == 0 && s[13] == sum
            && s[26] == s[27] == 0
  {
    hide Run;
  }

  /** n units from ci on. */
  function UnitsFrom(lfn: seq<u16>, ci: nat, n: nat): (us: seq<u16>)
    ensures |us| == n && forall k | 0 <= k < n :: us[k] == UnitAt(lfn, ci + k)
  {
    seq<u16>(n, k requires 0 <= k => UnitAt(lfn, ci + k))
  }

  lemma PartIs(lfn: seq<u16>, sum: byte, part: nat, last: bool)
    requires 1 <= part <= 20
    ensures PartUnits(LongSlot(lfn, sum, part, last)) == UnitsFrom(lfn, (part - 1) * 13, 13)
  {
    hide UnitIn, UnitAt, LongSlot;
    forall k | 0 <= k < 13
      ensures PartUnits(LongSlot(lfn, sum, part, last))[k] == UnitsFrom(lfn, (part - 1) * 13, 13)[k]
    {
      LongSlotReads(lfn, sum, part, last, k);
    }
  }

  lemma UnitsJoin(lfn: seq<u16>, ci: nat, n: nat, m: nat)
    ensures UnitsFrom(lfn, ci, n) + UnitsFrom(lfn, ci + n, m) == UnitsFrom(lfn, ci, n + m)
  {
    hide UnitAt;
  }

  /** The first slot of a long name starts a reader afresh, the others go on with it. */
  lemma Gathers(lfn: seq<u16>, sum: byte, part: nat, g: Option<Long>)
    requires 1 <= part <= Parts(lfn) <= 20
    requires part < Parts(lfn) ==> g == Some(Long(UnitsFrom(lfn, part * 13, (Parts(lfn) - part) * 13), part, sum))
    ensures var s := LongSlot(lfn, sum, part, part == Parts(lfn));
            && s[0] != 0 && s[0] != FREE && s[11] == ATTR_LONG
            && Gather(g, s) == Some(Long(UnitsFrom(lfn, (part - 1) * 13, (Parts(lfn) - part + 1) * 13), part - 1, sum))
  {
    LongSlotMarks(lfn, sum, part, part == Parts(lfn));
    PartIs(lfn, sum, part, part == Parts(lfn));
    UnitsJoin(lfn, (part - 1) * 13, 13, (Parts(lfn) - part) * 13);
    hide UnitsFrom, LongSlot, PartUnits;
  }

  lemma {:induction false} LongIsRead(lfn: seq<u16>, sum: byte, part: nat, g: Option<Long>, rest: seq<seq<byte>>)
    requires part <= Parts(lfn) <= 20 && Parts(lfn) > 0
    requires part < Parts(lfn) ==> g == Some(Long(UnitsFrom(lfn, part * 13, (Parts(lfn) - part) * 13), part, sum))
    requires forall i | 0 <= i < |rest| :: |rest[i]| == SLOT
    ensures Decode(LongSlots(lfn, sum, part) + rest, g) ==
            Decode(rest, if part == 0 then g else Some(Long(UnitsFrom(lfn, 0, Parts(lfn) * 13), 0, sum)))
    decreases part
  {
    hide UnitsFrom, Gather, LongSlot;
    if part == 0 {
      assert [] + rest == rest;
    } else {
      Gathers(lfn, sum, part, g);
      var s := LongSlot(lfn, sum, part, part == Parts(lfn));
      var all := LongSlots(lfn, sum, part) + rest;
      assert all[0] == s && all[1..] == LongSlots(lfn, sum, part - 1) + rest;
      LongIsRead(lfn, sum, part - 1, Gather(g, s), rest);
    }
  }

  lemma {:induction false} CutIsName(lfn: seq<u16>, ci: nat, n: nat)
    requires ci <= |lfn| <= ci + n && forall i | 0 <= i < |lfn| :: lfn[i] != 0
    ensures Cut(UnitsFrom(lfn, ci, n)) == lfn[ci..]
    decreases n
  {
    if n == 0 {
      assert UnitsFrom(lfn, ci, n) == [] && lfn[ci..] == [];
    } else if ci == |lfn| {
      assert UnitsFrom(lfn, ci, n)[0] == 0 && lfn[ci..] == [];
    } else {
      assert UnitsFrom(lfn, ci, n)[1..] == UnitsFrom(lfn, ci + 1, n - 1);
      CutIsName(lfn, ci + 1, n - 1);
      assert lfn[ci..] == [lfn[ci]] + lfn[ci + 1..];
    }
  }

  lemma ShortIsRead(e: Entry, g: Option<Long>)
    requires Proper(e) && LongName(g, e.name.sfn) == e.name.lfn
    ensures var s := ShortSlot(e); s[0] != 0 && s[0] != FREE && s[11] % 0x40 != 0x0F && ReadShort(s, g) == e
  {
    hide LongName, PutU32, GetU32;
    var s := ShortSlot(e);
    assert s[..11] == e.name.sfn;
    assert s[28..32] == PutU32(if e.dir then 0 else e.size);
    U32RoundTrip(s, 28, if e.dir then 0 else e.size);
    var clus := PutU32(e.first);
    U32RoundTrip(clus, 0, e.first) by { assert clus[0..4] == clus; }
    ClusterIs(e, clus);
  }

  lemma ClusterIs(e: Entry, clus: seq<byte>)
    requires |e.name.sfn| == 11 && clus == PutU32(e.first)
    ensures var s := ShortSlot(e);
            ClusterIn(s) == GetU32(clus, 0)
  {
    hide PutU32;
    var s := ShortSlot(e);
    assert s[20] == clus[2] && s[21] == clus[3] && s[26] == clus[0] && s[27] == clus[1];
  }

  /** What has been gathered before the short entry. */
  function Gathered(e: Entry): Option<Long> {
    if e.name.lfn == [] then None
    else Some(Long(UnitsFrom(e.name.lfn, 0, Parts(e.name.lfn) * 13), 0, LfnSum(e.name.sfn)))
  }

  lemma LongComesFirst(e: Entry, more: seq<seq<byte>>)
    requires Proper(e) && forall i | 0 <= i < |more| :: |more[i]| == SLOT
    ensures Decode(LongSlots(e.name.lfn, LfnSum(e.name.sfn), Parts(e.name.lfn)) + more, None) == Decode(more, Gathered(e))
    ensures LongName(Gathered(e), e.name.sfn) == e.name.lfn
  {
    hide Decode, UnitsFrom, Cut;
    var lfn := e.name.lfn;
    if lfn == [] {
      assert LongSlots(lfn, LfnSum(e.name.sfn), 0) + more == more;
    } else {
      LongIsRead(lfn, LfnSum(e.name.sfn), Parts(lfn), None, more);
      CutIsName(lfn, 0, Parts(lfn) * 13);
      assert lfn[0..] == lfn;
    }
  }

  /** An entry, as written, is read back whole. */
  lemma EntryIsRead(e: Entry, rest: seq<seq<byte>>)
    requires Proper(e) && forall i | 0 <= i < |rest| :: |rest[i]| == SLOT
    ensures Decode(Slots(e) + rest, None) == [e] + Decode(rest, None)
  {
    hide ShortSlot, ReadShort, LongSlots, LongName, Gathered;
    var more := [ShortSlot(e)] + rest;
    assert Slots(e) + rest == LongSlots(e.name.lfn, LfnSum(e.name.sfn), Parts(e.name.lfn)) + more;
    LongComesFirst(e, more);
    ShortIsRead(e, Gathered(e));
    assert more[0] == ShortSlot(e) && more[1..] == rest;
  }

  // ---- whole directories ----

  ghost predicate AllProper(es: seq<Entry>) {
    forall i | 0 <= i < |es| :: Proper(es[i])
  }

  function AllSlots(es: seq<Entry>): (ss: seq<seq<byte>>)
    requires AllProper(es)
    ensures |ss| == SlotCount(es) && forall i | 0 <= i < |ss| :: |ss[i]| == SLOT
    decreases |es|
  {
    if es == [] then [] else assert Proper(es[|es| - 1]); AllSlots(es[..|es| - 1]) + Slots(es[|es| - 1])
  }

  /** The slots that the entries take: one each, and the parts of its long name. */
  function SlotCount(es: seq<Entry>): nat
    decreases |es|
  {
    if es == [] then 0 else SlotCount(es[..|es| - 1]) + Parts(es[|es| - 1].name.lfn) + 1
  }

  lemma {:induction false} AllAreRead(es: seq<Entry>, rest: seq<seq<byte>>)
    requires AllProper(es) && forall i | 0 <= i < |rest| :: |rest[i]| == SLOT
    ensures Decode(AllSlots(es) + rest, None) == es + Decode(rest, None)
    decreases |es|
  {
    hide Decode, Slots;
    if es == [] {
      assert [] + rest == rest && es + Decode(rest, None) == Decode(rest, None);
    } else {
      var n := |es| - 1;
      assert Proper(es[n]);
      EntryIsRead(es[n], rest);
      AllAreRead(es[..n], Slots(es[n]) + rest);
      assert AllSlots(es[..n]) + (Slots(es[n]) + rest) == AllSlots(es) + rest;
      assert es[..n] + ([es[n]] + Decode(rest, None)) == es + Decode(rest, None);
    }
  }

  /** The bytes of some slots. */
  function Bytes(ss: seq<seq<byte>>): (b: seq<byte>)
    requires forall i | 0 <= i < |ss| :: |ss[i]| == SLOT
    ensures |b| == SLOT * |ss|
    decreases |ss|
  {
    if ss == [] then [] else Bytes(ss[..|ss| - 1]) + ss[|ss| - 1]
  }

  /** The slots of a directory's bytes. */
  function SlotsOf(b: seq<byte>): (ss: seq<seq<byte>>)
    ensures forall i | 0 <= i < |ss| :: |ss[i]| == SLOT
    decreases |b|
  {
    if |b| < SLOT then [] else [b[..SLOT]] + SlotsOf(b[SLOT..])
  }

  lemma {:induction false} SlotsComeBack(ss: seq<seq<byte>>, rest: seq<byte>)
    requires forall i | 0 <= i < |ss| :: |ss[i]| == SLOT
    ensures SlotsOf(Bytes(ss) + rest) == ss + SlotsOf(rest)
    decreases |ss|
  {
    if ss == [] {
      assert [] + rest == rest && ss + SlotsOf(rest) == SlotsOf(rest);
    } else {
      var n := |ss| - 1;
      var tail := ss[n] + rest;
      SlotsComeBack(ss[..n], tail);
      assert Bytes(ss[..n]) + tail == Bytes(ss) + rest;
      assert tail[..SLOT] == ss[n] && tail[SLOT..] == rest;
      assert ss[..n] + ([ss[n]] + SlotsOf(rest)) == ss + SlotsOf(rest);
    }
  }

  /** What a reader makes of a directory's bytes. */
  function ReadDir(b: seq<byte>): seq<Entry> { Decode(SlotsOf(b), None) }

  /** Entries written at the front of a zeroed area with room for one slot more are exactly what is read. */
  lemma DirIsRead(es: seq<Entry>, b: seq<byte>)
    requires AllProper(es)
    requires |b| >= SLOT * (SlotCount(es) + 1) && Bytes(AllSlots(es)) <= b
    requires forall i | SLOT * SlotCount(es) <= i < |b| :: b[i] == 0
    ensures ReadDir(b) == es
  {
    hide Decode, Proper, AllSlots, Bytes;
    var ss := AllSlots(es);
    var rest := b[|Bytes(ss)|..];
    assert b == Bytes(ss) + rest;
    SlotsComeBack(ss, rest);
    AllAreRead(es, SlotsOf(rest));
    EndIsRead(rest);
    assert es + [] == es;
  }

  lemma EndIsRead(rest: seq<byte>)
    requires |rest| >= SLOT && rest[0] == 0
    ensures Decode(SlotsOf(rest), None) == []
  {
    assert SlotsOf(rest)[0] == rest[..SLOT];
  }

  // ---- writing ----

  /** Some slots at the front, and zeros after them. */
  ghost predicate Filled(b: seq<byte>, ss: seq<seq<byte>>)
    requires forall i | 0 <= i < |ss| :: |ss[i]| == SLOT
  {
    Bytes(ss) <= b && forall i | SLOT * |ss| <= i < |b| :: b[i] == 0
  }

  /** One slot at p, behind those that are there. */
  method PutSlot(bytes: array<byte>, p: nat, slot: seq<byte>, ghost ss: seq<seq<byte>>)
    requires |slot| == SLOT && (forall i | 0 <= i < |ss| :: |ss[i]| == SLOT)
    requires p == SLOT * |ss| && p + SLOT <= bytes.Length && Filled(bytes[..], ss)
    modifies bytes
    ensures Filled(bytes[..], ss + [slot])
  {
    hide Bytes;
    OneMoreSlot(ss, slot);
    assert bytes[..p] == Bytes(ss);
    CopyInto(bytes, p, slot);
    assert bytes[..p + SLOT] == old(bytes[..p]) + slot;
  }

  lemma OneMoreSlot(ss: seq<seq<byte>>, s: seq<byte>)
    requires |s| == SLOT && forall i | 0 <= i < |ss| :: |ss[i]| == SLOT
    ensures Bytes(ss + [s]) == Bytes(ss) + s
  {
    assert (ss + [s])[..|ss|] == ss;
  }

  /** The parts of a long name, last part first. */
  method PutParts(bytes: array<byte>, p: nat, lfn: seq<u16>, sum: byte, ghost ss: seq<seq<byte>>) returns (q: nat)
    requires Parts(lfn) <= 20 && (forall i | 0 <= i < |ss| :: |ss[i]| == SLOT)
    requires p == SLOT * |ss| && p + SLOT * Parts(lfn) <= bytes.Length && Filled(bytes[..], ss)
    modifies bytes
    ensures Filled(bytes[..], ss + LongSlots(lfn, sum, Parts(lfn))) && q == p + SLOT * Parts(lfn)
  {
    hide Filled, LongSlot, LongSlots, Parts;
    q := p;
    var part := Parts(lfn);
    ghost var done := [];
    assert ss + [] == ss && [] + LongSlots(lfn, sum, part) == LongSlots(lfn, sum, part);
    while part > 0
      invariant 0 <= part <= Parts(lfn) && forall i | 0 <= i < |done| :: |done[i]| == SLOT
      invariant |done| == Parts(lfn) - part && q == p + SLOT * |done| && Filled(bytes[..], ss + done)
      invariant done + LongSlots(lfn, sum, part) == LongSlots(lfn, sum, Parts(lfn))
    {
      var slot := LongSlot(lfn, sum, part, part == Parts(lfn));
      NextPart(lfn, sum, part, done, ss);
      PutSlot(bytes, q, slot, ss + done);
      done := done + [slot];
      q := q + SLOT;
      part := part - 1;
    }
    NoPartsLeft(lfn, sum);
    assert done + [] == done;
  }

  /** One entry: its long name, and the short entry. */
  method PutEntry(bytes: array<byte>, p: nat, e: Entry, ghost ss: seq<seq<byte>>) returns (q: nat)
    requires Proper(e) && (forall i | 0 <= i < |ss| :: |ss[i]| == SLOT)
    requires p == SLOT * |ss| && p + SLOT * (Parts(e.name.lfn) + 1) <= bytes.Length && Filled(bytes[..], ss)
    modifies bytes
    ensures Filled(bytes[..], ss + Slots(e)) && q == p + SLOT * (Parts(e.name.lfn) + 1)
  {
    PartsOf(e);
    ShortLast(e, ss);
    hide Filled, LongSlots, ShortSlot, Proper, Parts, Slots;
    var sum := Checksum(e.name.sfn);
    q := PutParts(bytes, p, e.name.lfn, sum, ss);
    PutSlot(bytes, q, ShortSlot(e), ss + LongSlots(e.name.lfn, sum, Parts(e.name.lfn)));
    q := q + SLOT;
  }

  lemma ShortLast(e: Entry, ss: seq<seq<byte>>)
    requires |e.name.sfn| == 11 && |e.name.lfn| <= 255 && Parts(e.name.lfn) <= 20
    ensures ss + LongSlots(e.name.lfn, LfnSum(e.name.sfn), Parts(e.name.lfn)) + [ShortSlot(e)] == ss + Slots(e)
  {
    hide LongSlots, ShortSlot, Parts;
  }

  lemma NoPartsLeft(lfn: seq<u16>, sum: byte)
    requires Parts(lfn) <= 20
    ensures LongSlots(lfn, sum, 0) == []
  {
  }

  lemma PartsOf(e: Entry)
    requires Proper(e)
    ensures Parts(e.name.lfn) <= 20 && |e.name.sfn| == 11 && |e.name.lfn| <= 255
  {
  }

  lemma NextPart(lfn: seq<u16>, sum: byte, part: nat, done: seq<seq<byte>>, ss: seq<seq<byte>>)
    requires 0 < part <= Parts(lfn) <= 20
    ensures var slot := LongSlot(lfn, sum, part, part == Parts(lfn));
            && ss + done + [slot] == ss + (done + [slot])
            && done + [slot] + LongSlots(lfn, sum, part - 1) == done + LongSlots(lfn, sum, part)
  {
    hide LongSlot;
    var slot := LongSlot(lfn, sum, part, part == Parts(lfn));
    assert done + ([slot] + LongSlots(lfn, sum, part - 1)) == done + [slot] + LongSlots(lfn, sum, part - 1);
  }

  /** A directory in an area of `size` bytes that has room for the entries and one slot more: nothing is written past
      that room, and a reader finds exactly the entries. */
  method WriteDir(es: seq<Entry>, size: nat) returns (bytes: array<byte>)
    requires AllProper(es) && size >= SLOT * (SlotCount(es) + 1)
    ensures fresh(bytes) && bytes.Length == size && ReadDir(bytes[..]) == es
  {
    hide Proper, Slots, Bytes;
    bytes := new byte[size](_ => 0);
    var p := 0;
    NothingFilled(bytes[..]);
    for j := 0 to |es|
      invariant AllProper(es[..j])
      invariant p == SLOT * SlotCount(es[..j]) && Filled(bytes[..], AllSlots(es[..j]))
    {
      NextEntry(es, j);
      p := PutEntry(bytes, p, es[j], AllSlots(es[..j]));
    }
    assert es[..|es|] == es;
    DirIsRead(es, bytes[..]);
  }

  lemma NothingFilled(b: seq<byte>)
    requires forall i | 0 <= i < |b| :: b[i] == 0
    ensures AllSlots([]) == [] && SlotCount([]) == 0 && Filled(b, [])
  {
  }

  lemma {:induction false} NextEntry(es: seq<Entry>, j: nat)
    requires AllProper(es) && j < |es|
    ensures AllProper(es[..j + 1])
    ensures Proper(es[j]) && AllSlots(es[..j + 1]) == AllSlots(es[..j]) + Slots(es[j])
    ensures SlotCount(es[..j + 1]) == SlotCount(es[..j]) + Parts(es[j].name.lfn) + 1 <= SlotCount(es)
    decreases |es|
  {
    hide Proper, Slots;
    assert es[..j + 1][..j] == es[..j];
    if j + 1 < |es| {
      var n := |es| - 1;
      assert es[..n][..j + 1] == es[..j + 1] && es[..n][..j] == es[..j];
      NextEntry(es[..n], j);
    } else {
      assert es[..j + 1] == es;
    }
  }
}
